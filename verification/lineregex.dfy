/** The amount line pattern shared by both variants,
    `^\s*([+-]?\d[\d\s]*([.,]\d{1,2})?)\s*(.*)$`, with the match a backtracking engine
    (JavaScript `String.prototype.match`, Python `re.match`) reports.

    A match is described by the six positions where its pieces begin and end. `Valid` is the
    language of the pattern: every way the pattern can match. A backtracking engine tries the
    greedy choice of each quantifier first, so among all valid splits it reports the
    lexicographically greatest one; `Match` computes it directly, and `MatchIsGreatest` proves
    that it is exactly that split. */
module LineRegex {
  import opened Chars
  import opened Wrappers

  /** `t[..lead]` is the leading `\s*`; an optional sign follows, and the digits begin at
      `digits`; `t[digits + 1..run]` is the `[\d\s]*` run; `t[run..num]` is the optional
      fraction `([.,]\d{1,2})?`; `t[num..note]` is the second `\s*` and `t[note..end]` is
      `(.*)`. Group 1 is `t[lead..num]`, group 2 `t[run..num]`, group 3 `t[note..end]`. */
  datatype Split = Split(lead: nat, digits: nat, run: nat, num: nat, note: nat, end: nat)

  /** `([.,]\d{1,2})?` matches `t[run..num]`. */
  predicate FracOk(t: string, run: nat, num: nat) {
    || num == run
    || (&& (num == run + 2 || num == run + 3) && num <= |t|
        && (t[run] == '.' || t[run] == ',') && AllDigits(t[run + 1..num]))
  }

  /** `$` matches at `end`: at the very end, or in Python also just before a final newline. */
  predicate EndOk(d: Dialect, t: string, end: nat) {
    end == |t| || (d == Py && end + 1 == |t| && t[end] == '\n')
  }

  /** `\s*(.*)$` matches from `num` with group 3 being `t[note..end]`. */
  predicate TailOk(d: Dialect, t: string, num: nat, note: nat, end: nat) {
    && num <= note <= end <= |t|
    && AllSpace(d, t[num..note]) && AllDot(d, t[note..end]) && EndOk(d, t, end)
  }

  /** Every way the pattern matches `t`. */
  predicate Valid(d: Dialect, t: string, m: Split) {
    && m.lead <= m.digits < m.run <= m.num <= |t|
    && AllSpace(d, t[..m.lead])
    && (m.digits == m.lead || (m.digits == m.lead + 1 && IsSign(t[m.lead])))
    && IsDigit(t[m.digits]) && AllDigitOrSpace(d, t[m.digits + 1..m.run])
    && FracOk(t, m.run, m.num)
    && TailOk(d, t, m.num, m.note, m.end)
  }

  /** Lexicographic order on the positions, in the order the pattern reads them. */
  predicate LexLe(a: Split, b: Split) {
    || a.lead < b.lead
    || (a.lead == b.lead && a.digits < b.digits)
    || (a.lead == b.lead && a.digits == b.digits && a.run < b.run)
    || (a.lead == b.lead && a.digits == b.digits && a.run == b.run && a.num < b.num)
    || (a.lead == b.lead && a.digits == b.digits && a.run == b.run && a.num == b.num && a.note < b.note)
    || (a.lead == b.lead && a.digits == b.digits && a.run == b.run && a.num == b.num && a.note == b.note
        && a.end <= b.end)
  }

  /** Where the greedy `\s*` after group 1 stops, starting from `num`. */
  function NoteStart(d: Dialect, t: string, num: nat): (note: nat)
    requires num <= |t|
    ensures num <= note <= |t|
  {
    num + SpaceRun(d, t, num)
  }

  /** Where the greedy `(.*)` stops, starting from `note`. */
  function NoteEnd(d: Dialect, t: string, note: nat): (end: nat)
    requires note <= |t|
    ensures note <= end <= |t|
  {
    note + DotRun(d, t, note)
  }

  /** The greedy tail from `num` reaches a place where `$` matches. */
  predicate TailFits(d: Dialect, t: string, num: nat)
    requires num <= |t|
  {
    EndOk(d, t, NoteEnd(d, t, NoteStart(d, t, num)))
  }

  /** Where group 1 ends once the `[\d\s]*` run stops at `run`: the optional fraction is tried
      with two digits, then with one, then left out, and kept only if the tail then fits. */
  function FracEnd(d: Dialect, t: string, run: nat): (num: nat)
    requires run <= |t|
    ensures FracOk(t, run, num) && num <= |t|
    ensures num != run ==> TailFits(d, t, num)
  {
    if FracOk(t, run, run + 3) && TailFits(d, t, run + 3) then run + 3
    else if FracOk(t, run, run + 2) && TailFits(d, t, run + 2) then run + 2
    else run
  }

  /** The match the engine reports, if any. */
  function Match(d: Dialect, t: string): (r: Option<Split>)
    ensures r.Some? ==> Valid(d, t, r.value)
  {
    var lead := SpaceRun(d, t, 0);
    if lead == |t| then None
    else
      var digits := if IsSign(t[lead]) then lead + 1 else lead;
      if digits == |t| || !IsDigit(t[digits]) then None
      else
        assert t[..lead] == t[0..lead];
        MatchFrom(d, t, lead, digits)
  }

  /** The rest of the match once the leading whitespace and the sign are consumed. */
  function MatchFrom(d: Dialect, t: string, lead: nat, digits: nat): (r: Option<Split>)
    requires lead <= digits < |t| && AllSpace(d, t[..lead]) && IsDigit(t[digits])
    requires digits == lead || (digits == lead + 1 && IsSign(t[lead]))
    ensures r.Some? ==> Valid(d, t, r.value)
  {
    var run := digits + 1 + DigitSpaceRun(d, t, digits + 1);
    MatchAt(d, t, lead, digits, run, FracEnd(d, t, run))
  }

  /** The match once group 1 is known to end at `num`: the greedy tail, if it fits. */
  function MatchAt(d: Dialect, t: string, lead: nat, digits: nat, run: nat, num: nat): (r: Option<Split>)
    requires num <= |t|
    ensures r.Some? ==> r.value == Split(lead, digits, run, num, r.value.note, r.value.end)
    ensures r.Some? ==> TailOk(d, t, num, r.value.note, r.value.end)
  {
    if !TailFits(d, t, num) then None
    else
      var note := NoteStart(d, t, num);
      GreedyTail(d, t, num);
      Some(Split(lead, digits, run, num, note, NoteEnd(d, t, note)))
  }

  // ---------------------------------------------------------------------------
  // The tail `\s*(.*)$`

  lemma {:induction false} GreedyTail(d: Dialect, t: string, num: nat)
    requires num <= |t| && TailFits(d, t, num)
    ensures var note := NoteStart(d, t, num); TailOk(d, t, num, note, NoteEnd(d, t, note))
  {
  }

  /** The greedy tail is the greatest of the valid tails from the same place. */
  lemma {:induction false} TailGreatest(d: Dialect, t: string, num: nat, note: nat, end: nat)
    requires TailOk(d, t, num, note, end)
    ensures TailFits(d, t, num)
    ensures note <= NoteStart(d, t, num)
    ensures note == NoteStart(d, t, num) ==> end <= NoteEnd(d, t, note)
  {
    var n := NoteStart(d, t, num);
    SpaceRunMax(d, t, num, note);
    var e := NoteEnd(d, t, n);
    if note == n {
      DotRunMax(d, t, note, end);
    } else if n < end {
      // The greedy `\s*` swallowed the start of group 3, which keeps matching `.` up to `end`.
      assert AllDot(d, t[n..end]) by {
        forall i | n <= i < end ensures DotMatches(d, t[i]) {
          assert t[note..end][i - note] == t[i];
        }
      }
      DotRunMax(d, t, n, end);
    }
    if e < end {
      assert false;
    }
    if e != |t| {
      assert end == |t| - 1 && d == Py && t[end] == '\n';
      if e < |t| - 1 {
        assert false;
      }
    }
  }

  /** A tail that matches from some place matches from every later place. */
  lemma {:induction false} TailLater(d: Dialect, t: string, y: nat, x: nat, note: nat, end: nat)
    requires TailOk(d, t, y, note, end) && y <= x <= |t|
    ensures TailFits(d, t, x)
  {
    if x <= note {
      assert t[x..note] == t[y..note][x - y..];
      TailGreatest(d, t, x, note, end);
    } else if x <= end {
      assert t[x..end] == t[note..end][x - note..];
      TailGreatest(d, t, x, x, end);
    } else {
      TailGreatest(d, t, x, x, x);
    }
  }

  // ---------------------------------------------------------------------------
  // The reported match is the greatest valid one

  /** The leading `\s*` and the sign are forced: no valid split starts elsewhere. */
  lemma {:induction false} LeadForced(d: Dialect, t: string, m: Split)
    requires Valid(d, t, m)
    ensures m.lead == SpaceRun(d, t, 0) && m.lead < |t|
    ensures m.digits == if IsSign(t[m.lead]) then m.lead + 1 else m.lead
  {
    assert t[..m.lead] == t[0..m.lead];
    SpaceRunMax(d, t, 0, m.lead);
    var n := SpaceRun(d, t, 0);
    assert !IsSpace(d, t[m.lead]) by {
      assert IsSign(t[m.lead]) || IsDigit(t[m.lead]);
    }
  }

  /** Once the sign and the `[\d\s]*` run are fixed, `Match` answers with the greedy fraction
      and the greedy tail, or with nothing if that tail does not fit. */
  lemma {:induction false} MatchAfterSign(d: Dialect, t: string, lead: nat, digits: nat)
    requires lead == SpaceRun(d, t, 0) && lead < |t|
    requires digits == (if IsSign(t[lead]) then lead + 1 else lead)
    requires digits < |t| && IsDigit(t[digits])
    ensures AllSpace(d, t[..lead])
    ensures Match(d, t) == MatchFrom(d, t, lead, digits)
  {
    assert t[..lead] == t[0..lead];
  }

  /** The fraction tried first is the longest one after which the tail fits. */
  lemma {:induction false} FracEndGreatest(d: Dialect, t: string, run: nat, num: nat)
    requires run <= num <= |t| && FracOk(t, run, num) && TailFits(d, t, num)
    ensures num <= FracEnd(d, t, run) && TailFits(d, t, FracEnd(d, t, run))
  {
  }

  /** `MatchFrom` with its choices named. */
  lemma {:induction false} MatchFromIs(d: Dialect, t: string, lead: nat, digits: nat, run: nat, num: nat)
    requires lead <= digits < |t| && AllSpace(d, t[..lead]) && IsDigit(t[digits])
    requires digits == lead || (digits == lead + 1 && IsSign(t[lead]))
    requires run == digits + 1 + DigitSpaceRun(d, t, digits + 1) && num == FracEnd(d, t, run)
    ensures MatchFrom(d, t, lead, digits) == MatchAt(d, t, lead, digits, run, num)
  {
  }

  /** `MatchAt` answers with the greedy tail exactly when it fits. */
  lemma {:induction false} MatchAtIs(d: Dialect, t: string, lead: nat, digits: nat, run: nat, num: nat)
    requires num <= |t|
    ensures TailFits(d, t, num) ==> MatchAt(d, t, lead, digits, run, num) == Some(Split(lead, digits, run, num, NoteStart(d, t, num), NoteEnd(d, t, NoteStart(d, t, num))))
    ensures !TailFits(d, t, num) ==> MatchAt(d, t, lead, digits, run, num) == None
  {
  }

  /** A valid split whose `[\d\s]*` run stops early has no fraction, and the greedy run
      then leaves a tail that fits. */
  lemma {:induction false} ShorterRun(d: Dialect, t: string, m: Split)
    requires Valid(d, t, m)
    requires m.run < m.digits + 1 + DigitSpaceRun(d, t, m.digits + 1)
    ensures var r := MatchFrom(d, t, m.lead, m.digits);
      r.Some? && r.value.lead == m.lead && r.value.digits == m.digits && r.value.run > m.run
  {
    var run := m.digits + 1 + DigitSpaceRun(d, t, m.digits + 1);
    NoFractionInsideRun(d, t, m, run);
    TailLater(d, t, m.num, run, m.note, m.end);
    FracEndGreatest(d, t, run, run);
    MatchFromIs(d, t, m.lead, m.digits, run, FracEnd(d, t, run));
    MatchAtIs(d, t, m.lead, m.digits, run, FracEnd(d, t, run));
  }

  /** Inside the `[\d\s]*` run there is no separator, so a split stopping there has no fraction. */
  lemma {:induction false} NoFractionInsideRun(d: Dialect, t: string, m: Split, run: nat)
    requires Valid(d, t, m)
    requires run == m.digits + 1 + DigitSpaceRun(d, t, m.digits + 1) && m.run < run
    ensures m.num == m.run
  {
    assert t[m.digits + 1..run][m.run - m.digits - 1] == t[m.run];
  }

  /** A valid split with the greedy `[\d\s]*` run is no greater than the greedy match. */
  lemma {:induction false} SameRun(d: Dialect, t: string, m: Split)
    requires Valid(d, t, m)
    requires m.run == m.digits + 1 + DigitSpaceRun(d, t, m.digits + 1)
    ensures var r := MatchFrom(d, t, m.lead, m.digits); r.Some? && LexLe(m, r.value)
  {
    TailGreatest(d, t, m.num, m.note, m.end);
    FracEndGreatest(d, t, m.run, m.num);
    MatchFromIs(d, t, m.lead, m.digits, m.run, FracEnd(d, t, m.run));
    MatchAtIs(d, t, m.lead, m.digits, m.run, FracEnd(d, t, m.run));
  }

  /** `Match` finds a match whenever the pattern matches, and it is at least as great as every
      valid split. */
  lemma {:induction false} MatchIsGreatest(d: Dialect, t: string, m: Split)
    requires Valid(d, t, m)
    ensures Match(d, t).Some? && LexLe(m, Match(d, t).value)
  {
    LeadForced(d, t, m);
    MatchAfterSign(d, t, m.lead, m.digits);
    DigitSpaceRunMax(d, t, m.digits + 1, m.run);
    if m.run < m.digits + 1 + DigitSpaceRun(d, t, m.digits + 1) {
      ShorterRun(d, t, m);
    } else {
      SameRun(d, t, m);
    }
  }

  /** A reported match is valid and no valid split is greater; no report means no match. */
  lemma {:induction false} MatchSpec(d: Dialect, t: string)
    ensures Match(d, t).Some? ==> Valid(d, t, Match(d, t).value)
    ensures Match(d, t).Some? ==> forall m :: Valid(d, t, m) ==> LexLe(m, Match(d, t).value)
    ensures Match(d, t).None? ==> forall m :: !Valid(d, t, m)
  {
    forall m | Valid(d, t, m) ensures Match(d, t).Some? && LexLe(m, Match(d, t).value) {
      MatchIsGreatest(d, t, m);
    }
  }
}
