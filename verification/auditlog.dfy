/** The audit log of ledger entries.

    The worker keeps, per chat, a list of the most recent entries, newest first, cut to the
    first 100 after every insertion. The script inserts a row into an append-only table,
    so its log is unbounded and oldest first. */
module AuditLog {
  /** The worker's retention cap. */
  const Cap: nat := 100

  function Min(a: nat, b: nat): nat {
    if a <= b then a else b
  }

  /** The first `n` elements, or all of them when there are fewer. */
  function Take<T>(s: seq<T>, n: nat): (r: seq<T>)
    ensures |r| == Min(|s|, n) && r == s[..|r|]
  {
    if |s| <= n then s else s[..n]
  }

  /** The worker's `addEntry`: put the entry in front and keep the first `Cap` entries. */
  function AddEntry<T>(log: seq<T>, e: T): (r: seq<T>)
    ensures 0 < |r| <= Cap && r[0] == e
    ensures |r| == Min(|log| + 1, Cap)
    ensures r[1..] == log[..|r| - 1]
  {
    var arr := [e] + log;
    if |arr| > Cap then arr[..Cap] else arr
  }

  /** The script's `add_entry`: one more row at the end of the table. */
  function AppendEntry<T>(log: seq<T>, e: T): (r: seq<T>)
    ensures |r| == |log| + 1 && r[|log|] == e && r[..|log|] == log
  {
    log + [e]
  }

  /** Entries added one after the other, `es[0]` first. */
  function AddAll<T>(log: seq<T>, es: seq<T>): seq<T>
    decreases |es|
  {
    if |es| == 0 then log else AddAll(AddEntry(log, es[0]), es[1..])
  }

  function AppendAll<T>(log: seq<T>, es: seq<T>): seq<T>
    decreases |es|
  {
    if |es| == 0 then log else AppendAll(AppendEntry(log, es[0]), es[1..])
  }

  function Reverse<T>(s: seq<T>): (r: seq<T>)
    ensures |r| == |s| && forall i :: 0 <= i < |s| ==> r[i] == s[|s| - 1 - i]
  {
    if |s| == 0 then [] else Reverse(s[1..]) + [s[0]]
  }

  /** Putting an entry in front of a cut list and cutting again is cutting once. */
  lemma AddEntryTake<T>(s: seq<T>, e: T)
    ensures AddEntry(Take(s, Cap), e) == Take([e] + s, Cap)
  {
    var l := Take(s, Cap);
    var r := AddEntry(l, e);
    var u := Take([e] + s, Cap);
    assert |r| == |u|;
    forall i | 0 <= i < |r| ensures r[i] == u[i] {
      if i > 0 {
        assert r[i] == r[1..][i - 1];
      }
    }
  }

  /** The worker's log after a run of insertions is the newest `Cap` of everything ever
      inserted, newest first: the inserted entries reversed, then the old log. */
  lemma {:induction false} AddAllKeepsNewest<T>(log: seq<T>, es: seq<T>)
    requires |log| <= Cap
    ensures AddAll(log, es) == Take(Reverse(es) + log, Cap)
    decreases |es|
  {
    if |es| == 0 {
      assert Reverse(es) + log == log;
    } else {
      var rest := es[1..];
      var first := AddEntry(log, es[0]);
      assert first == Take([es[0]] + log, Cap) by {
        AddEntryTake(log, es[0]);
        assert Take(log, Cap) == log;
      }
      AddAllKeepsNewest(first, rest);
      AddAllTake(Reverse(rest), [es[0]] + log);
      assert Reverse(rest) + ([es[0]] + log) == Reverse(es) + log;
    }
  }

  /** Cutting the tail first does not change the front `Cap` elements. */
  lemma AddAllTake<T>(a: seq<T>, b: seq<T>)
    ensures Take(a + Take(b, Cap), Cap) == Take(a + b, Cap)
  {
    var l := Take(a + Take(b, Cap), Cap);
    var r := Take(a + b, Cap);
    assert |l| == |r|;
    forall i | 0 <= i < |l| ensures l[i] == r[i] {
      if i >= |a| {
        assert l[i] == Take(b, Cap)[i - |a|];
      }
    }
  }

  /** After inserting 150 entries into an empty log exactly the 100 most recent remain,
      most recent first. */
  lemma Retention<T>(es: seq<T>)
    requires |es| == 150
    ensures |AddAll([], es)| == 100
    ensures forall i :: 0 <= i < 100 ==> AddAll([], es)[i] == es[149 - i]
  {
    AddAllKeepsNewest([], es);
    assert Reverse(es) + [] == Reverse(es);
  }

  /** The script's log keeps every row in insertion order. */
  lemma {:induction false} AppendAllKeepsAll<T>(log: seq<T>, es: seq<T>)
    ensures AppendAll(log, es) == log + es
    decreases |es|
  {
    if |es| > 0 {
      AppendAllKeepsAll(log + [es[0]], es[1..]);
      assert log + [es[0]] + es[1..] == log + es;
    }
  }
}
