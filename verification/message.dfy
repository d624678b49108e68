/** Reading an amount line: `parseMessage` of the worker and `parse_message` of the script.

    The line is matched against the amount line pattern; group 1 (sign, digits with embedded
    whitespace, optional fraction) loses its whitespace and is converted to cents, group 3
    trimmed is the note. A zero amount is ignored like a line that does not match. The worker
    deletes every whitespace character of group 1 and never fails; the script deletes only the
    ASCII space, so a tab or another whitespace character left inside the amount makes
    `to_cents` raise. */
module Message {
  import opened Chars
  import opened Decimal
  import opened Amount
  import opened Wrappers
  import opened LineRegex

  /** What reading a line yields: nothing (`null` / `None`), an amount, or the "bad amount"
      error `to_cents` raises. */
  datatype Outcome = Ignored | Parsed(amountAbs: nat, note: string, sign: int) | Raises

  /** `parseMessage(t)` / `parse_message(t)`. */
  function ParseMessage(d: Dialect, t: string): (r: Outcome)
    ensures r.Parsed? ==> r.amountAbs > 0 && (r.sign == 1 || r.sign == -1)
  {
    match Match(d, t)
    case None => Ignored
    case Some(m) => OutcomeOf(ToCents(d, AmountText(d, t, m)), Trim(d, t[m.note..m.end]))
  }

  /** What a converted amount and a note make: the error propagates, zero is ignored, and
      otherwise the magnitude and the sign are reported apart. */
  function OutcomeOf(a: AmountResult, note: string): (r: Outcome)
    ensures r.Parsed? ==> r.amountAbs > 0 && (r.sign == 1 || r.sign == -1)
  {
    match a
    case BadAmount => Raises
    case Cents(c) =>
      if c == 0 then Ignored
      else Parsed(if c < 0 then -c else c, note, if c < 0 then -1 else 1)
  }

  // ---------------------------------------------------------------------------
  // The pieces of group 1

  function SignText(t: string, m: Split): string
    requires m.lead <= m.digits <= |t|
  {
    t[m.lead..m.digits]
  }

  /** The digits and the whitespace between them: `\d[\d\s]*`. */
  function Body(t: string, m: Split): string
    requires m.digits <= m.run <= |t|
  {
    t[m.digits..m.run]
  }

  function FracText(t: string, m: Split): string
    requires m.run <= m.num <= |t|
  {
    t[m.run..m.num]
  }

  function FracDigits(t: string, m: Split): string
    requires m.run <= m.num <= |t|
  {
    if m.num == m.run then "" else t[m.run + 1..m.num]
  }

  function Separator(t: string, m: Split): char
    requires m.run <= m.num <= |t|
  {
    if m.num == m.run then '.' else t[m.run]
  }

  /** The amount a matched line denotes: the digits of group 1 before the fraction, with all
      whitespace dropped, as whole units, and the fraction padded on the right to cents. */
  function LineValue(d: Dialect, t: string, m: Split): nat
    requires Valid(d, t, m)
  {
    FracShape(d, t, m);
    DigitsToNat(DigitsOf(Body(t, m))) * 100 + DigitsToNat(PadFraction(FracDigits(t, m)))
  }

  /** A whitespace character other than the ASCII space with a digit somewhere after it. */
  predicate Stray(g: string) {
    exists i, j :: 0 <= i < j < |g| && IsPySpace(g[i]) && g[i] != ' ' && IsDigit(g[j])
  }

  lemma {:induction false} GroupOneSplit(d: Dialect, t: string, m: Split)
    requires Valid(d, t, m)
    ensures t[m.lead..m.num] == SignText(t, m) + Body(t, m) + FracText(t, m)
  {
    assert t[m.lead..m.num] == t[m.lead..m.digits] + t[m.digits..m.run] + t[m.run..m.num];
  }

  lemma {:induction false} SignShape(d: Dialect, t: string, m: Split)
    requires Valid(d, t, m)
    ensures var s := SignText(t, m); s == "" || s == "+" || s == "-"
    ensures forall i :: 0 <= i < |SignText(t, m)| ==> IsSign(SignText(t, m)[i])
  {
  }

  lemma {:induction false} BodyShape(d: Dialect, t: string, m: Split)
    requires Valid(d, t, m)
    ensures var b := Body(t, m); |b| >= 1 && IsDigit(b[0]) && AllDigitOrSpace(d, b)
  {
    var b := Body(t, m);
    forall i | 0 <= i < |b| ensures IsDigit(b[i]) || IsSpace(d, b[i]) {
      if i > 0 {
        assert b[i] == t[m.digits + 1..m.run][i - 1];
      }
    }
  }

  lemma {:induction false} FracShape(d: Dialect, t: string, m: Split)
    requires Valid(d, t, m)
    ensures var f := FracDigits(t, m);
      && |f| <= 2 && AllDigits(f)
      && FracText(t, m) == (if |f| == 0 then "" else [Separator(t, m)] + f)
      && (Separator(t, m) == '.' || Separator(t, m) == ',')
  {
    if m.num > m.run {
      assert t[m.run..m.num] == [t[m.run]] + t[m.run + 1..m.num];
    }
  }

  lemma {:induction false} WellFormedGroupOne(d: Dialect, t: string, m: Split)
    requires Valid(d, t, m)
    ensures WellFormedNumeral(SignText(t, m), DigitsOf(Body(t, m)), Separator(t, m), FracDigits(t, m))
  {
    SignShape(d, t, m);
    BodyShape(d, t, m);
    DigitsOfNonEmpty(Body(t, m));
    FracShape(d, t, m);
  }

  /** The sign and the fraction of group 1 contain no whitespace at all. */
  lemma {:induction false} EndsNoSpace(d: Dialect, t: string, m: Split)
    requires Valid(d, t, m)
    ensures NoSpace(d, SignText(t, m)) && NoSpace(d, FracText(t, m))
    ensures forall i :: 0 <= i < |SignText(t, m)| ==> SignText(t, m)[i] != ' '
    ensures forall i :: 0 <= i < |FracText(t, m)| ==> FracText(t, m)[i] != ' '
  {
    SignNoSpace(d, t, m);
    FracNoSpace(d, t, m);
  }

  lemma {:induction false} SignNoSpace(d: Dialect, t: string, m: Split)
    requires Valid(d, t, m)
    ensures var s := SignText(t, m); forall i :: 0 <= i < |s| ==> !IsSpace(d, s[i]) && s[i] != ' '
  {
    var s := SignText(t, m);
    forall i | 0 <= i < |s| ensures !IsSpace(d, s[i]) && s[i] != ' ' {
      assert s[i] == t[m.lead];
    }
  }

  lemma {:induction false} FracNoSpace(d: Dialect, t: string, m: Split)
    requires Valid(d, t, m)
    ensures var f := FracText(t, m); forall i :: 0 <= i < |f| ==> !IsSpace(d, f[i]) && f[i] != ' '
  {
    var f := FracText(t, m);
    forall i | 0 <= i < |f| ensures !IsSpace(d, f[i]) && f[i] != ' ' {
      if i == 0 {
        assert f[0] == t[m.run];
      } else {
        assert f[i] == t[m.run + 1..m.num][i - 1];
      }
    }
  }

  /** The value of a numeral built from the pieces of group 1. */
  lemma {:induction false} GroupOneValue(d: Dialect, t: string, m: Split)
    requires Valid(d, t, m)
    ensures var n := Numeral(SignText(t, m), DigitsOf(Body(t, m)), Separator(t, m), FracDigits(t, m));
      ToCents(d, n) == Cents(if SignText(t, m) == "-" then -(LineValue(d, t, m) as int) else LineValue(d, t, m))
  {
    var s, w, sep, f := SignText(t, m), DigitsOf(Body(t, m)), Separator(t, m), FracDigits(t, m);
    assert WellFormedNumeral(s, w, sep, f) by {
      WellFormedGroupOne(d, t, m);
    }
    ToCentsNumeral(d, s, w, sep, f);
  }

  // ---------------------------------------------------------------------------
  // The worker

  /** Deleting all whitespace of group 1 leaves a well-formed numeral. */
  lemma {:induction false} JsAmountText(t: string, m: Split)
    requires Valid(Js, t, m)
    ensures RemoveSpaces(Js, t[m.lead..m.num])
      == Numeral(SignText(t, m), DigitsOf(Body(t, m)), Separator(t, m), FracDigits(t, m))
  {
    GroupOneSplit(Js, t, m);
    EndsNoSpace(Js, t, m);
    BodyShape(Js, t, m);
    FracShape(Js, t, m);
    var s := SignText(t, m);
    var b := Body(t, m);
    var f := FracText(t, m);
    RemoveSpacesAppend(Js, s + b, f);
    RemoveSpacesAppend(Js, s, b);
    RemoveSpacesOfNoSpace(Js, s);
    RemoveSpacesOfNoSpace(Js, f);
    RemoveSpacesKeepsDigits(Js, b);
  }

  // ---------------------------------------------------------------------------
  // The script

  /** The number of leading characters of `s` that are digits or ASCII spaces. */
  function BlankDigitPrefix(s: string): (k: nat)
    ensures k <= |s|
    ensures forall i :: 0 <= i < k ==> IsDigit(s[i]) || s[i] == ' '
    ensures k < |s| ==> !IsDigit(s[k]) && s[k] != ' '
  {
    if |s| == 0 || !(IsDigit(s[0]) || s[0] == ' ') then 0
    else
      var k := BlankDigitPrefix(s[1..]);
      assert forall i :: 0 < i <= k ==> s[i] == s[1..][i - 1];
      1 + k
  }

  lemma {:induction false} RemoveBlanksAllSpace(s: string)
    requires AllSpace(Py, s)
    ensures AllSpace(Py, RemoveBlanks(s))
  {
    if |s| > 0 {
      var init := s[..|s| - 1];
      assert AllSpace(Py, init) by {
        forall i | 0 <= i < |init| ensures IsSpace(Py, init[i]) {
          assert init[i] == s[i];
        }
      }
      RemoveBlanksAllSpace(init);
    }
  }

  /** Without a stray whitespace character, the body is digits and ASCII spaces followed by
      whitespace only. */
  lemma {:induction false} CleanBody(b: string, k: nat)
    requires |b| >= 1 && IsDigit(b[0]) && AllDigitOrSpace(Py, b)
    requires k == BlankDigitPrefix(b)
    requires forall j :: k < j < |b| ==> !IsDigit(b[j])
    ensures RemoveBlanks(b) == DigitsOf(b) + RemoveBlanks(b[k..])
    ensures AllSpace(Py, RemoveBlanks(b[k..]))
    ensures |DigitsOf(b)| >= 1
  {
    assert forall j :: k <= j < |b| ==> !IsDigit(b[j]);
    CleanSplit(b, k);
    CleanRest(b, k);
    DigitsOfNonEmpty(b);
  }

  /** Digits and blanks, then no digit at all: the blank-free string is the digits followed by
      the blank-free rest. */
  lemma {:induction false} CleanSplit(b: string, k: nat)
    requires k <= |b|
    requires forall i :: 0 <= i < k ==> IsDigit(b[i]) || b[i] == ' '
    requires forall j :: k <= j < |b| ==> !IsDigit(b[j])
    ensures RemoveBlanks(b) == DigitsOf(b) + RemoveBlanks(b[k..])
  {
    var head, rest := b[..k], b[k..];
    assert b == head + rest;
    assert RemoveBlanks(head) == DigitsOf(head) by {
      assert forall i :: 0 <= i < |head| ==> head[i] == b[i];
      RemoveBlanksKeepsDigits(head);
    }
    assert DigitsOf(rest) == "" by {
      assert forall i :: 0 <= i < |rest| ==> rest[i] == b[k + i];
      DigitsOfNoDigit(rest);
    }
    RemoveBlanksAppend(head, rest);
    DigitsOfAppend(head, rest);
  }

  /** After the digits-and-blanks prefix, a body without further digits is whitespace. */
  lemma {:induction false} CleanRest(b: string, k: nat)
    requires AllDigitOrSpace(Py, b) && k <= |b|
    requires forall j :: k <= j < |b| ==> !IsDigit(b[j])
    ensures AllSpace(Py, RemoveBlanks(b[k..]))
  {
    var rest := b[k..];
    forall i | 0 <= i < |rest| ensures IsSpace(Py, rest[i]) {
      assert rest[i] == b[k + i];
    }
    RemoveBlanksAllSpace(rest);
  }

  /** `to_cents` reads the same amount from two strings that strip to the same normal form. */
  lemma {:induction false} ToCentsAfterStrip(raw: string, n: string)
    requires Trim(Py, raw) == n && Trim(Py, n) == n
    ensures ToCents(Py, raw) == ToCents(Py, n)
  {
    assert Normalize(Py, raw) == Normalize(Py, n);
  }

  /** Group 1 as three strings: a sign of at most one character, the digits with embedded
      whitespace, and the fraction with its separator. */
  predicate GroupPieces(s: string, b: string, f: string) {
    && (s == "" || s == "+" || s == "-")
    && |b| >= 1 && IsDigit(b[0]) && AllDigitOrSpace(Py, b)
    && (forall i :: 0 <= i < |f| ==> IsDigit(f[i]) || f[i] == '.' || f[i] == ',')
    && (|f| > 0 ==> IsDigit(f[|f| - 1]))
  }

  lemma {:induction false} GroupPiecesOf(t: string, m: Split)
    requires Valid(Py, t, m)
    ensures GroupPieces(SignText(t, m), Body(t, m), FracText(t, m))
    ensures SignText(t, m) + DigitsOf(Body(t, m)) + FracText(t, m)
      == Numeral(SignText(t, m), DigitsOf(Body(t, m)), Separator(t, m), FracDigits(t, m))
  {
    SignShape(Py, t, m);
    BodyShape(Py, t, m);
    FracShape(Py, t, m);
    var f := FracText(t, m);
    forall i | 0 <= i < |f| ensures IsDigit(f[i]) || f[i] == '.' || f[i] == ',' {
      if i > 0 {
        assert f[i] == FracDigits(t, m)[i - 1];
      }
    }
  }

  /** Where a stray character of group 1 can be. */
  lemma {:induction false} StrayInBody(s: string, b: string, f: string, i: nat, j: nat)
    requires GroupPieces(s, b, f)
    requires var g := s + b + f; i < j < |g| && IsPySpace(g[i]) && g[i] != ' ' && IsDigit(g[j])
    ensures |s| <= i < |s| + |b| && (s + b + f)[i] == b[i - |s|]
  {
  }

  /** Without a stray character, everything after the first character that is neither a digit
      nor an ASCII space is whitespace, and then there is no fraction. */
  lemma {:induction false} CleanTail(s: string, b: string, f: string, k: nat)
    requires GroupPieces(s, b, f) && !Stray(s + b + f)
    requires k == BlankDigitPrefix(b)
    ensures forall j :: k < j < |b| ==> !IsDigit(b[j])
    ensures k < |b| ==> |f| == 0
  {
    var g := s + b + f;
    if k < |b| {
      assert IsPySpace(b[k]);
      forall j | k < j < |b| ensures !IsDigit(b[j]) {
        if IsDigit(b[j]) {
          StrayAt(g, |s| + k, |s| + j);
        }
      }
      if |f| > 0 {
        StrayAt(g, |s| + k, |g| - 1);
      }
    }
  }

  /** The two positions a stray character and its digit stand at. */
  lemma {:induction false} StrayWitness(g: string) returns (i: nat, j: nat)
    requires Stray(g)
    ensures i < j < |g| && IsPySpace(g[i]) && g[i] != ' ' && IsDigit(g[j])
  {
    i, j :| 0 <= i < j < |g| && IsPySpace(g[i]) && g[i] != ' ' && IsDigit(g[j]);
  }

  lemma {:induction false} StrayAt(g: string, i: nat, j: nat)
    requires i < j < |g| && IsPySpace(g[i]) && g[i] != ' ' && IsDigit(g[j])
    ensures Stray(g)
  {
  }

  lemma {:induction false} RemoveBlanksPieces(s: string, b: string, f: string)
    requires GroupPieces(s, b, f)
    ensures RemoveBlanks(s + b + f) == s + RemoveBlanks(b) + f
  {
    assert RemoveBlanks(s) == s by {
      SignNoBlank(s);
    }
    assert RemoveBlanks(f) == f by {
      RemoveBlanksOfNoBlank(f);
    }
    RemoveBlanksMiddle(s, b, f);
  }

  lemma {:induction false} SignNoBlank(s: string)
    requires s == "" || s == "+" || s == "-"
    ensures RemoveBlanks(s) == s
  {
    RemoveBlanksOfNoBlank(s);
  }

  /** Deleting blanks only in the middle piece when the outer ones have none. */
  lemma {:induction false} RemoveBlanksMiddle(s: string, b: string, f: string)
    requires RemoveBlanks(s) == s && RemoveBlanks(f) == f
    ensures RemoveBlanks(s + b + f) == s + RemoveBlanks(b) + f
  {
    RemoveBlanksAppend(s + b, f);
    RemoveBlanksAppend(s, b);
  }

  /** Without a stray whitespace character, the blank-free body is its digits followed by
      whitespace, and by nothing when a fraction follows. */
  lemma {:induction false} CleanBodyText(s: string, b: string, f: string) returns (w: string)
    requires GroupPieces(s, b, f) && !Stray(s + b + f)
    ensures RemoveBlanks(b) == DigitsOf(b) + w
    ensures AllSpace(Py, w) && (|f| > 0 ==> w == [])
  {
    var k := BlankDigitPrefix(b);
    CleanTail(s, b, f, k);
    CleanBody(b, k);
    w := RemoveBlanks(b[k..]);
    if |f| > 0 {
      assert b[k..] == [];
    }
  }

  lemma {:induction false} CleanPieces(s: string, b: string, f: string) returns (w: string)
    requires GroupPieces(s, b, f) && !Stray(s + b + f)
    ensures RemoveBlanks(s + b + f) == s + DigitsOf(b) + f + w
    ensures AllSpace(Py, w)
  {
    w := CleanBodyText(s, b, f);
    RemoveBlanksPieces(s, b, f);
    if |f| == 0 {
      assert s + (DigitsOf(b) + w) + f == s + DigitsOf(b) + f + w;
    } else {
      assert DigitsOf(b) + w == DigitsOf(b);
      assert s + DigitsOf(b) + f + w == s + DigitsOf(b) + f;
    }
  }

  /** Sign, digits and fraction start and end with a character that is not whitespace. */
  lemma {:induction false} NumeralEnds(s: string, ds: string, f: string)
    requires s == "" || s == "+" || s == "-"
    requires |ds| >= 1 && AllDigits(ds) && (|f| > 0 ==> IsDigit(f[|f| - 1]))
    ensures var n := s + ds + f; |n| > 0 && !IsPySpace(n[0]) && !IsPySpace(n[|n| - 1])
  {
    var n := s + ds + f;
    assert n[|n| - 1] == (if |f| == 0 then ds[|ds| - 1] else f[|f| - 1]);
    assert n[0] == if |s| == 0 then ds[0] else s[0];
  }

  /** Without a stray whitespace character, stripping the blank-free group 1 leaves its sign,
      its digits and its fraction. */
  lemma {:induction false} PyAmountClean(s: string, b: string, f: string)
    requires GroupPieces(s, b, f) && !Stray(s + b + f)
    ensures Trim(Py, RemoveBlanks(s + b + f)) == s + DigitsOf(b) + f
  {
    var w := CleanPieces(s, b, f);
    var n := s + DigitsOf(b) + f;
    DigitsOfNonEmpty(b);
    NumeralEnds(s, DigitsOf(b), f);
    TrimTrailing(Py, n, w);
  }

  lemma {:induction false} AmountShapeHasNoSpace(s: string, c: char)
    requires AmountShape(s) && IsPySpace(c)
    ensures c !in s
  {
  }

  /** Deleting blanks around a character that is not one. */
  lemma {:induction false} RemoveBlanksAround(b: string, bi: nat)
    requires bi < |b| && b[bi] != ' '
    ensures RemoveBlanks(b) == RemoveBlanks(b[..bi]) + [b[bi]] + RemoveBlanks(b[bi + 1..])
  {
    assert b == b[..bi] + [b[bi]] + b[bi + 1..];
    RemoveBlanksAppend(b[..bi] + [b[bi]], b[bi + 1..]);
    RemoveBlanksAppend(b[..bi], [b[bi]]);
    assert RemoveBlanks([b[bi]]) == [b[bi]] by {
      assert [b[bi]][..0] == [];
    }
  }

  /** The blank-free group 1 around a stray character. */
  lemma {:induction false} StraySplit(s: string, b: string, f: string, bi: nat)
    requires RemoveBlanks(s + b + f) == s + RemoveBlanks(b) + f && bi < |b| && b[bi] != ' '
    ensures RemoveBlanks(s + b + f) == s + RemoveBlanks(b[..bi]) + [b[bi]] + (RemoveBlanks(b[bi + 1..]) + f)
  {
    var x, y, z := RemoveBlanks(b[..bi]), [b[bi]], RemoveBlanks(b[bi + 1..]);
    RemoveBlanksAround(b, bi);
    ConcatShift(s, x + y, z, f);
  }

  lemma {:induction false} ConcatShift(a: string, b: string, c: string, e: string)
    ensures a + (b + c) + e == a + b + (c + e)
  {
  }

  /** The blank-free group 1 starts with its sign or its first digit. */
  lemma {:induction false} RemoveBlanksStart(s: string, b: string, f: string)
    requires GroupPieces(s, b, f)
    ensures var r := RemoveBlanks(s + b + f); |r| > 0 && !IsPySpace(r[0])
  {
    RemoveBlanksPieces(s, b, f);
    var rb := RemoveBlanks(b);
    assert rb == [b[0]] + RemoveBlanks(b[1..]) by {
      assert b == [b[0]] + b[1..];
      RemoveBlanksAppend([b[0]], b[1..]);
      assert RemoveBlanks([b[0]]) == [b[0]] by {
        assert [b[0]][..0] == [];
      }
    }
    var r := RemoveBlanks(s + b + f);
    assert r == s + rb + f;
    if |s| > 0 {
      assert r[0] == s[0];
    } else {
      assert r[0] == rb[0];
    }
  }

  /** A stray character of group 1 lies in the body, and a digit follows it there or in the
      fraction. */
  lemma {:induction false} StrayLocate(s: string, b: string, f: string) returns (bi: nat, dj: char)
    requires GroupPieces(s, b, f) && Stray(s + b + f)
    ensures bi < |b| && IsPySpace(b[bi]) && b[bi] != ' '
    ensures IsDigit(dj) && dj in RemoveBlanks(b[bi + 1..]) + f
  {
    var g := s + b + f;
    var i, j := StrayWitness(g);
    StrayInBody(s, b, f, i, j);
    bi := i - |s|;
    dj := g[j];
    DigitAfter(s, b, f, bi, j);
  }

  /** A digit after position `bi` of the body survives the deletion of blanks. */
  lemma {:induction false} DigitAfter(s: string, b: string, f: string, bi: nat, j: nat)
    requires bi < |b| && |s| + bi < j < |s + b + f| && IsDigit((s + b + f)[j])
    ensures (s + b + f)[j] in RemoveBlanks(b[bi + 1..]) + f
  {
    var dj := (s + b + f)[j];
    if j < |s| + |b| {
      assert dj == b[bi + 1..][j - |s| - bi - 1];
      RemoveBlanksKeeps(b[bi + 1..], dj);
    } else {
      assert dj == f[j - |s| - |b|];
    }
  }

  /** A whitespace character with a digit after it, in a string that does not start with
      whitespace, makes `to_cents` fail. */
  lemma {:induction false} StrayKept(r: string, a: string, c: char, rest: string, dj: char)
    requires r == a + [c] + rest && |r| > 0 && !IsPySpace(r[0])
    requires IsPySpace(c) && c != ' ' && IsDigit(dj) && dj in rest
    ensures ToCents(Py, r) == BadAmount
  {
    var q :| 0 <= q < |rest| && rest[q] == dj;
    assert r[|a|] == c && r[|a| + 1 + q] == dj;
    assert r[..0] == [];
    TrimKeepsInner(Py, r, 0, |a|, |a| + 1 + q);
    RemoveBlanksKeeps(Trim(Py, r), c);
    ReplaceAllCommasKeeps(RemoveBlanks(Trim(Py, r)), c);
    if AmountShape(Normalize(Py, r)) {
      AmountShapeHasNoSpace(Normalize(Py, r), c);
    }
  }

  /** A stray whitespace character survives stripping and makes the amount bad. */
  lemma {:induction false} PyAmountStray(s: string, b: string, f: string)
    requires GroupPieces(s, b, f) && Stray(s + b + f)
    ensures ToCents(Py, RemoveBlanks(s + b + f)) == BadAmount
  {
    var bi, dj := StrayLocate(s, b, f);
    RemoveBlanksPieces(s, b, f);
    StraySplit(s, b, f, bi);
    RemoveBlanksStart(s, b, f);
    StrayKept(RemoveBlanks(s + b + f), s + RemoveBlanks(b[..bi]), b[bi], RemoveBlanks(b[bi + 1..]) + f, dj);
  }

  /** The string group 1 becomes before conversion. */
  function AmountText(d: Dialect, t: string, m: Split): string
    requires m.lead <= m.num <= |t|
  {
    if d == Js then RemoveSpaces(Js, t[m.lead..m.num]) else RemoveBlanks(t[m.lead..m.num])
  }

  /** What the converted amount of a valid split is. */
  lemma {:induction false} AmountOfSplit(d: Dialect, t: string, m: Split)
    requires Valid(d, t, m)
    ensures var v := LineValue(d, t, m);
      ToCents(d, AmountText(d, t, m)) ==
        if d == Py && Stray(t[m.lead..m.num]) then BadAmount
        else Cents(if SignText(t, m) == "-" then -(v as int) else v)
  {
    var g := t[m.lead..m.num];
    GroupOneValue(d, t, m);
    if d == Js {
      JsAmountText(t, m);
    } else {
      GroupOneSplit(d, t, m);
      GroupPiecesOf(t, m);
      var s, b, f := SignText(t, m), Body(t, m), FracText(t, m);
      if Stray(g) {
        PyAmountStray(s, b, f);
      } else {
        PyAmountClean(s, b, f);
        WellFormedGroupOne(d, t, m);
        NumeralTrimmed(Py, s, DigitsOf(b), Separator(t, m), FracDigits(t, m));
        ToCentsAfterStrip(RemoveBlanks(g), s + DigitsOf(b) + f);
      }
    }
  }

  /** The complete reading of a line: no match is ignored; in the script a stray whitespace
      character in group 1 raises; otherwise the line denotes `LineValue`, negative exactly
      when group 1 starts with a minus, and zero is ignored. */
  lemma {:induction false} ParseMessageSpec(d: Dialect, t: string)
    ensures Match(d, t).None? ==> ParseMessage(d, t) == Ignored
    ensures Match(d, t).Some? ==>
      var m := Match(d, t).value;
      var v := LineValue(d, t, m);
      ParseMessage(d, t) ==
        if d == Py && Stray(t[m.lead..m.num]) then Raises
        else if v == 0 then Ignored
        else Parsed(v, Trim(d, t[m.note..m.end]), if SignText(t, m) == "-" then -1 else 1)
  {
    if Match(d, t).Some? {
      var m := Match(d, t).value;
      var v := LineValue(d, t, m);
      var stray := d == Py && Stray(t[m.lead..m.num]);
      var neg := SignText(t, m) == "-";
      assert ToCents(d, AmountText(d, t, m)) == if stray then BadAmount else Cents(if neg then -(v as int) else v) by {
        AmountOfSplit(d, t, m);
      }
      OutcomeOfCents(stray, v, neg, Trim(d, t[m.note..m.end]));
    }
  }

  /** Reading a conversion result of the form the split predicts. */
  lemma {:induction false} OutcomeOfCents(stray: bool, v: nat, neg: bool, note: string)
    ensures OutcomeOf(if stray then BadAmount else Cents(if neg then -(v as int) else v), note) ==
      if stray then Raises else if v == 0 then Ignored else Parsed(v, note, if neg then -1 else 1)
  {
  }

  /** The worker never throws while reading a line. */
  lemma {:induction false} JsNeverRaises(t: string)
    ensures ParseMessage(Js, t) != Raises
  {
    ParseMessageSpec(Js, t);
  }
}
