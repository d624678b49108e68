/** Amount lines written the ordinary way: an optional sign, digits with spaces between the
    groups, an optional fraction, blanks, and a note. For such a line the greedy match is
    known in advance, and reading the line gives the digits with every space dropped. */
module AmountLine {
  import opened Chars
  import opened Decimal
  import opened Amount
  import opened Wrappers
  import opened LineRegex
  import opened Message

  /** `t` is `t[..p0]` (nothing or a sign), `t[p0..p1]` (digits and whitespace, starting and
      ending with a digit), `t[p1..p2]` (nothing, or a separator and one or two digits),
      `t[p2..p3]` (whitespace) and `t[p3..]` (the note, on one line, not starting with
      whitespace). A note that could extend the number is excluded: after a bare integer it
      may not start with a digit or a separator, and after a one-digit fraction written
      without blanks it may not start with a digit. */
  predicate LineShape(d: Dialect, t: string, p0: nat, p1: nat, p2: nat, p3: nat) {
    && p0 < p1 <= p2 <= p3 <= |t|
    && (p0 == 0 || (p0 == 1 && IsSign(t[0])))
    && IsDigit(t[p0]) && AllDigitOrSpace(d, t[p0 + 1..p1]) && IsDigit(t[p1 - 1])
    && (p2 == p1 || ((p2 == p1 + 2 || p2 == p1 + 3) && (t[p1] == '.' || t[p1] == ',') && AllDigits(t[p1 + 1..p2])))
    && AllSpace(d, t[p2..p3])
    && AllDot(d, t[p3..])
    && (p3 == |t| || !IsSpace(d, t[p3]))
    && (p2 == p1 && p3 < |t| ==> !IsDigit(t[p3]) && t[p3] != '.' && t[p3] != ',')
    && (p2 == p1 + 2 && p3 == p2 && p3 < |t| ==> !IsDigit(t[p3]))
  }

  /** The end of the `[\d\s]*` run: it swallows the blanks after a bare integer. */
  function RunEnd(p1: nat, p2: nat, p3: nat): nat {
    if p2 == p1 then p3 else p1
  }

  /** The end of group 1. */
  function NumEnd(p1: nat, p2: nat, p3: nat): nat {
    if p2 == p1 then p3 else p2
  }

  lemma {:induction false} DigitNotSpace(d: Dialect, c: char)
    requires IsDigit(c) || IsSign(c) || c == '.' || c == ','
    ensures !IsSpace(d, c)
  {
  }

  lemma {:induction false} SpaceNotDigit(d: Dialect, c: char)
    requires IsSpace(d, c)
    ensures !IsDigit(c)
  {
  }

  lemma {:induction false} JoinDigitSpace(d: Dialect, t: string, a: nat, b: nat, c: nat)
    requires a <= b <= c <= |t|
    requires AllDigitOrSpace(d, t[a..b]) && AllSpace(d, t[b..c])
    ensures AllDigitOrSpace(d, t[a..c])
  {
    forall i | a <= i < c ensures IsDigit(t[i]) || IsSpace(d, t[i]) {
      if i < b {
        assert t[a..b][i - a] == t[i];
      } else {
        assert t[b..c][i - b] == t[i];
      }
    }
  }

  /** The greedy `[\d\s]*` run after the first digit. */
  lemma {:induction false} LineRun(d: Dialect, t: string, p0: nat, p1: nat, p2: nat, p3: nat)
    requires LineShape(d, t, p0, p1, p2, p3)
    ensures p0 + 1 + DigitSpaceRun(d, t, p0 + 1) == RunEnd(p1, p2, p3)
  {
    var run := RunEnd(p1, p2, p3);
    if p2 == p1 {
      JoinDigitSpace(d, t, p0 + 1, p1, p3);
    } else {
      DigitNotSpace(d, t[p1]);
    }
    DigitSpaceRunExact(d, t, p0 + 1, run);
  }

  /** The greedy tail from the end of group 1 reaches the end of the line. */
  lemma {:induction false} LineTail(d: Dialect, t: string, p0: nat, p1: nat, p2: nat, p3: nat, num: nat)
    requires LineShape(d, t, p0, p1, p2, p3)
    requires num == p2 || num == p3
    requires num == p3 || AllSpace(d, t[num..p3])
    ensures NoteStart(d, t, num) == p3 && NoteEnd(d, t, p3) == |t| && TailFits(d, t, num)
  {
    if num == p3 {
      assert t[num..p3] == [];
    }
    SpaceRunExact(d, t, num, p3);
    DotRunExact(d, t, p3, |t|);
  }

  /** Which fraction the engine keeps. */
  lemma {:induction false} LineFrac(d: Dialect, t: string, p0: nat, p1: nat, p2: nat, p3: nat)
    requires LineShape(d, t, p0, p1, p2, p3)
    ensures FracEnd(d, t, RunEnd(p1, p2, p3)) == NumEnd(p1, p2, p3)
  {
    if p2 == p1 {
      FracNone(d, t, p3);
    } else {
      LineTail(d, t, p0, p1, p2, p3, p2);
      if p2 == p1 + 3 {
        FracTwo(d, t, p1);
      } else {
        if p1 + 3 <= |t| {
          if p3 == p2 {
            assert !IsDigit(t[p1 + 2]);
          } else {
            assert t[p2..p3][0] == t[p1 + 2];
            SpaceNotDigit(d, t[p1 + 2]);
          }
        }
        FracOne(d, t, p1);
      }
    }
  }

  lemma {:induction false} FracNone(d: Dialect, t: string, run: nat)
    requires run <= |t| && (run == |t| || (t[run] != '.' && t[run] != ','))
    ensures FracEnd(d, t, run) == run
  {
  }

  lemma {:induction false} FracTwo(d: Dialect, t: string, run: nat)
    requires run + 3 <= |t| && FracOk(t, run, run + 3) && TailFits(d, t, run + 3)
    ensures FracEnd(d, t, run) == run + 3
  {
  }

  lemma {:induction false} FracOne(d: Dialect, t: string, run: nat)
    requires run + 2 <= |t| && FracOk(t, run, run + 2) && TailFits(d, t, run + 2)
    requires run + 3 <= |t| ==> !IsDigit(t[run + 2])
    ensures FracEnd(d, t, run) == run + 2
  {
    if run + 3 <= |t| {
      assert t[run + 1..run + 3][1] == t[run + 2];
    }
  }

  /** The match the engine reports on a line of the ordinary shape. */
  lemma {:induction false} MatchOfLine(d: Dialect, t: string, p0: nat, p1: nat, p2: nat, p3: nat)
    requires LineShape(d, t, p0, p1, p2, p3)
    ensures Match(d, t) == Some(Split(0, p0, RunEnd(p1, p2, p3), NumEnd(p1, p2, p3), p3, |t|))
  {
    var run := RunEnd(p1, p2, p3);
    var num := NumEnd(p1, p2, p3);
    DigitNotSpace(d, t[0]);
    assert SpaceRun(d, t, 0) == 0;
    MatchAfterSign(d, t, 0, p0);
    LineRun(d, t, p0, p1, p2, p3);
    LineFrac(d, t, p0, p1, p2, p3);
    LineTail(d, t, p0, p1, p2, p3, num);
    assert t[..0] == [];
    MatchFromIs(d, t, 0, p0, run, num);
  }

  /** The amount, in cents, written in `t[p0..p2]`: the digits before the fraction with every
      space dropped, times 100, plus the fraction padded to two digits. */
  function LineAmount(t: string, p0: nat, p1: nat, p2: nat): nat
    requires p0 <= p1 <= p2 <= |t|
    requires p2 == p1 || (p1 < p2 <= p1 + 3 && AllDigits(t[p1 + 1..p2]))
  {
    var frac := if p2 == p1 then "" else t[p1 + 1..p2];
    DigitsToNat(DigitsOf(t[p0..p1])) * 100 + DigitsToNat(PadFraction(frac))
  }

  /** The written sign. */
  function LineSign(t: string, p0: nat): int
    requires p0 <= |t|
  {
    if p0 == 1 && t[0] == '-' then -1 else 1
  }

  /** The amount a line of the ordinary shape denotes. */
  lemma {:induction false} LineValueOfLine(d: Dialect, t: string, p0: nat, p1: nat, p2: nat, p3: nat)
    requires LineShape(d, t, p0, p1, p2, p3)
    ensures var m := Split(0, p0, RunEnd(p1, p2, p3), NumEnd(p1, p2, p3), p3, |t|);
      Valid(d, t, m) && LineValue(d, t, m) == LineAmount(t, p0, p1, p2)
  {
    MatchOfLine(d, t, p0, p1, p2, p3);
    BodyDigits(d, t, p0, p1, p2, p3);
  }

  /** What reading a line of the ordinary shape gives: the written amount and sign, with the
      rest of the line, trimmed, as the note. The script raises instead when a whitespace
      character other than the space sits before a digit of the amount. */
  lemma {:induction false} ParseOfLine(d: Dialect, t: string, p0: nat, p1: nat, p2: nat, p3: nat)
    requires LineShape(d, t, p0, p1, p2, p3)
    ensures ParseMessage(d, t) ==
        if d == Py && Stray(t[..NumEnd(p1, p2, p3)]) then Raises
        else if LineAmount(t, p0, p1, p2) == 0 then Ignored
        else Parsed(LineAmount(t, p0, p1, p2), Trim(d, t[p3..]), LineSign(t, p0))
  {
    var m := Split(0, p0, RunEnd(p1, p2, p3), NumEnd(p1, p2, p3), p3, |t|);
    assert Match(d, t) == Some(m) by {
      MatchOfLine(d, t, p0, p1, p2, p3);
    }
    assert Valid(d, t, m) && LineValue(d, t, m) == LineAmount(t, p0, p1, p2) by {
      LineValueOfLine(d, t, p0, p1, p2, p3);
    }
    ParseOfSplit(d, t, m, LineAmount(t, p0, p1, p2));
  }

  /** A line of the ordinary shape whose amount, note and sign are known, with no stray
      whitespace for the script. */
  predicate LineFacts(d: Dialect, t: string, p0: nat, p1: nat, p2: nat, p3: nat, v: nat, note: string, sign: int) {
    && LineShape(d, t, p0, p1, p2, p3)
    && LineAmount(t, p0, p1, p2) == v && Trim(d, t[p3..]) == note && LineSign(t, p0) == sign
    && (d == Py ==> !Stray(t[..NumEnd(p1, p2, p3)]))
  }

  /** The same for a line whose pieces are already known, with no stray whitespace. */
  lemma {:induction false} ParsedLine(d: Dialect, t: string, p0: nat, p1: nat, p2: nat, p3: nat, v: nat, note: string, sign: int)
    requires LineFacts(d, t, p0, p1, p2, p3, v, note, sign)
    ensures ParseMessage(d, t) == if v == 0 then Ignored else Parsed(v, note, sign)
  {
    ParseOfLine(d, t, p0, p1, p2, p3);
  }

  lemma {:induction false} ParseOfSplit(d: Dialect, t: string, m: Split, v: nat)
    requires Match(d, t) == Some(m) && m.lead == 0 && m.digits <= 1 && m.end == |t|
    requires Valid(d, t, m) && LineValue(d, t, m) == v
    ensures ParseMessage(d, t) ==
        if d == Py && Stray(t[..m.num]) then Raises
        else if v == 0 then Ignored
        else Parsed(v, Trim(d, t[m.note..]), if m.digits == 1 && t[0] == '-' then -1 else 1)
  {
    ParseMessageSpec(d, t);
    FromStart(t, m.num);
    ToEnd(t, m.note);
    MinusPrefix(t, m.digits);
  }

  lemma {:induction false} FromStart(t: string, k: nat)
    requires k <= |t|
    ensures t[0..k] == t[..k]
  {
  }

  lemma {:induction false} ToEnd(t: string, k: nat)
    requires k <= |t|
    ensures t[k..|t|] == t[k..]
  {
  }

  lemma {:induction false} MinusPrefix(t: string, k: nat)
    requires k <= 1 && k <= |t|
    ensures t[0..k] == "-" <==> k == 1 && t[0] == '-'
  {
    if k == 1 {
      assert t[0..k][0] == t[0];
    } else {
      assert |t[0..k]| == 0;
    }
  }

  /** The body of group 1 has the same digits as `t[p0..p1]`: the blanks a bare integer's run
      swallows hold none. */
  lemma {:induction false} BodyDigits(d: Dialect, t: string, p0: nat, p1: nat, p2: nat, p3: nat)
    requires LineShape(d, t, p0, p1, p2, p3)
    ensures DigitsOf(t[p0..RunEnd(p1, p2, p3)]) == DigitsOf(t[p0..p1])
  {
    if p2 == p1 {
      assert t[p0..p3] == t[p0..p1] + t[p1..p3];
      DigitsOfAppend(t[p0..p1], t[p1..p3]);
      assert forall i :: 0 <= i < |t[p1..p3]| ==> !IsDigit(t[p1..p3][i]) by {
        forall i | 0 <= i < |t[p1..p3]| ensures !IsDigit(t[p1..p3][i]) {
          assert IsSpace(d, t[p2..p3][i]);
        }
      }
      DigitsOfNoDigit(t[p1..p3]);
      assert DigitsOf(t[p0..p1]) + "" == DigitsOf(t[p0..p1]);
    }
  }

  /** Without a whitespace character other than the space, nothing is stray. */
  lemma {:induction false} NoStray(g: string)
    requires forall i :: 0 <= i < |g| ==> IsPySpace(g[i]) ==> g[i] == ' '
    ensures !Stray(g)
  {
  }
}
