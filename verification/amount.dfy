/** Converting an amount string into signed integer cents: `toCentsSigned` of the worker and
    `to_cents` of the Python script. Both normalise the string, match it against
    `^[+-]?\d+(\.\d{1,2})?$`, and compute `sign * (integer part * 100 + fraction padded on the
    right to two digits)`; they differ only in how they normalise. */
module Amount {
  import opened Chars
  import opened Decimal

  /** The result of a conversion: the signed cents, or the "bad amount" error the source throws. */
  datatype AmountResult = Cents(value: int) | BadAmount

  function Unsigned(s: string): string {
    if |s| > 0 && IsSign(s[0]) then s[1..] else s
  }

  /** Membership in the language of `^[+-]?\d+(\.\d{1,2})?$` (with `$` meaning the very end):
      an optional sign, one or more digits, and optionally a dot followed by one or two digits. */
  predicate AmountShape(s: string) {
    var u := Unsigned(s);
    var k := DigitRun(u, 0);
    k >= 1 && (k == |u| || (u[k] == '.' && 2 <= |u| - k <= 3 && AllDigits(u[k + 1..])))
  }

  /** Python's `re.match` lets `$` also match just before a final newline. */
  predicate PatternMatches(d: Dialect, s: string) {
    match d
    case Js => AmountShape(s)
    case Py => AmountShape(s) || (|s| > 0 && s[|s| - 1] == '\n' && AmountShape(s[..|s| - 1]))
  }

  /** The string the pattern is matched against. The worker trims, deletes every whitespace
      character and turns the first comma into a dot; the script strips, deletes only the ASCII
      space and turns every comma into a dot. */
  function Normalize(d: Dialect, raw: string): string {
    match d
    case Js => ReplaceFirstComma(RemoveSpaces(Js, Trim(Js, raw)))
    case Py => ReplaceAllCommas(RemoveBlanks(Trim(Py, raw)))
  }

  /** `(b + "00")[:2]`: a fraction of one digit is padded on the right, so "5" means 50 cents. */
  function PadFraction(f: string): (r: string)
    requires |f| <= 2
    ensures |r| == 2
    ensures AllDigits(f) ==> AllDigits(r)
  {
    (f + "00")[..2]
  }

  /** The integer part and the fraction of a string of the amount shape. */
  function WholePart(s: string): string
    requires AmountShape(s)
  {
    var u := Unsigned(s);
    u[..DigitRun(u, 0)]
  }

  function FractionPart(s: string): string
    requires AmountShape(s)
  {
    var u := Unsigned(s);
    var k := DigitRun(u, 0);
    if k == |u| then "" else u[k + 1..]
  }

  /** The magnitude in cents written by a string of the amount shape. */
  function Magnitude(s: string): nat
    requires AmountShape(s)
  {
    DigitsToNat(WholePart(s)) * 100 + DigitsToNat(PadFraction(FractionPart(s)))
  }

  /** `toCentsSigned` (worker) and `to_cents` (script). */
  function ToCents(d: Dialect, raw: string): (r: AmountResult)
    ensures r.Cents? <==> AmountShape(Normalize(d, raw))
    ensures r.Cents? ==> var s := Normalize(d, raw);
      && (r.value < 0 ==> s[0] == '-')
      && (r.value > 0 ==> s[0] != '-')
      && (r.value == 0 <==> Magnitude(s) == 0)
  {
    var s := Normalize(d, raw);
    if !PatternMatches(d, s) then BadAmount
    else
      NormalizedNoFinalNewline(d, raw);
      var magnitude: int := Magnitude(s);
      Cents(if s[0] == '-' then -magnitude else magnitude)
  }

  // ---------------------------------------------------------------------------
  // Python's `$` before a final newline never matters: the stripped string cannot end in one.

  lemma {:induction false} RemoveBlanksLast(s: string)
    requires |s| > 0 && s[|s| - 1] != ' '
    ensures |RemoveBlanks(s)| > 0 && RemoveBlanks(s)[|RemoveBlanks(s)| - 1] == s[|s| - 1]
  {
  }

  lemma {:induction false} NormalizedNoFinalNewline(d: Dialect, raw: string)
    ensures PatternMatches(d, Normalize(d, raw)) <==> AmountShape(Normalize(d, raw))
  {
    if d == Py {
      var t := Trim(Py, raw);
      var b := RemoveBlanks(t);
      var n := ReplaceAllCommas(b);
      assert Normalize(Py, raw) == n;
      if |t| > 0 {
        assert !IsPySpace(t[|t| - 1]);
        RemoveBlanksLast(t);
        assert b[|b| - 1] == t[|t| - 1] != '\n';
        assert n[|n| - 1] != '\n';
      } else {
        assert n == "";
      }
    }
  }

  // ---------------------------------------------------------------------------
  // The value of amounts written in the canonical way

  /** An amount written as sign, digits, and an optional separator (`.` or `,`) followed by one or
      two fraction digits. */
  function Numeral(sign: string, whole: string, sep: char, frac: string): string {
    sign + whole + (if |frac| == 0 then "" else [sep] + frac)
  }

  predicate WellFormedNumeral(sign: string, whole: string, sep: char, frac: string) {
    && (sign == "" || sign == "+" || sign == "-")
    && |whole| >= 1 && AllDigits(whole)
    && |frac| <= 2 && AllDigits(frac)
    && (sep == '.' || sep == ',')
  }

  /** Only digits, signs and separators: nothing any normalisation step removes. */
  predicate Plain(s: string) {
    forall i :: 0 <= i < |s| ==> IsDigit(s[i]) || IsSign(s[i]) || s[i] == '.' || s[i] == ','
  }

  lemma {:induction false} NumeralPlain(sign: string, whole: string, sep: char, frac: string)
    requires WellFormedNumeral(sign, whole, sep, frac)
    ensures Plain(Numeral(sign, whole, sep, frac))
  {
    var s := Numeral(sign, whole, sep, frac);
    forall i | 0 <= i < |s| ensures IsDigit(s[i]) || IsSign(s[i]) || s[i] == '.' || s[i] == ',' {
      if i < |sign| {
        assert s[i] == sign[i];
      } else if i < |sign| + |whole| {
        assert s[i] == whole[i - |sign|];
      } else if i > |sign| + |whole| {
        assert s[i] == frac[i - |sign| - |whole| - 1];
      }
    }
  }

  lemma {:induction false} ReplaceFirstCommaPrefix(a: string, b: string)
    requires forall i :: 0 <= i < |a| ==> a[i] != ','
    ensures ReplaceFirstComma(a + b) == a + ReplaceFirstComma(b)
  {
    if |a| > 0 {
      assert (a + b)[0] == a[0];
      assert (a + b)[1..] == a[1..] + b;
      ReplaceFirstCommaPrefix(a[1..], b);
      calc {
        ReplaceFirstComma(a + b);
        [a[0]] + ReplaceFirstComma(a[1..] + b);
        [a[0]] + (a[1..] + ReplaceFirstComma(b));
        { assert [a[0]] + a[1..] == a; }
        a + ReplaceFirstComma(b);
      }
    } else {
      assert a + b == b;
    }
  }

  lemma {:induction false} PlainUntouched(d: Dialect, s: string)
    requires Plain(s)
    ensures NoSpace(d, s) && Trim(d, s) == s
    ensures forall i :: 0 <= i < |s| ==> s[i] != ' '
  {
    if |s| > 0 {
      assert !IsSpace(d, s[0]) && !IsSpace(d, s[|s| - 1]);
    }
    TrimNoOp(d, s);
  }

  lemma {:induction false} NumeralTrimmed(d: Dialect, sign: string, whole: string, sep: char, frac: string)
    requires WellFormedNumeral(sign, whole, sep, frac)
    ensures var s := Numeral(sign, whole, sep, frac); Plain(s) && NoSpace(d, s) && Trim(d, s) == s
    ensures forall i :: 0 <= i < |Numeral(sign, whole, sep, frac)| ==> Numeral(sign, whole, sep, frac)[i] != ' '
  {
    NumeralPlain(sign, whole, sep, frac);
    PlainUntouched(d, Numeral(sign, whole, sep, frac));
  }

  lemma {:induction false} NormalizeNumeralJs(sign: string, whole: string, sep: char, frac: string)
    requires WellFormedNumeral(sign, whole, sep, frac)
    ensures Normalize(Js, Numeral(sign, whole, sep, frac)) == Numeral(sign, whole, '.', frac)
  {
    var s := Numeral(sign, whole, sep, frac);
    NumeralTrimmed(Js, sign, whole, sep, frac);
    RemoveSpacesOfNoSpace(Js, s);
    CommaNumeral(sign, whole, sep, frac);
  }

  /** Replacing the first comma of a numeral turns its separator into a dot. */
  lemma {:induction false} CommaNumeral(sign: string, whole: string, sep: char, frac: string)
    requires WellFormedNumeral(sign, whole, sep, frac)
    ensures ReplaceFirstComma(Numeral(sign, whole, sep, frac)) == Numeral(sign, whole, '.', frac)
  {
    var prefix := sign + whole;
    var rest := if |frac| == 0 then "" else [sep] + frac;
    assert Numeral(sign, whole, sep, frac) == prefix + rest;
    PrefixNoComma(sign, whole);
    ReplaceFirstCommaPrefix(prefix, rest);
    if |frac| > 0 {
      SeparatorComma(sep, frac);
    }
  }

  lemma {:induction false} PrefixNoComma(sign: string, whole: string)
    requires (sign == "" || sign == "+" || sign == "-") && AllDigits(whole)
    ensures forall i :: 0 <= i < |sign + whole| ==> (sign + whole)[i] != ','
  {
    forall i | 0 <= i < |sign + whole|
      ensures (sign + whole)[i] != ','
    {
      if i >= |sign| {
        assert (sign + whole)[i] == whole[i - |sign|];
      }
    }
  }

  lemma {:induction false} SeparatorComma(sep: char, frac: string)
    requires (sep == '.' || sep == ',') && AllDigits(frac)
    ensures ReplaceFirstComma([sep] + frac) == ['.'] + frac
  {
    ReplaceFirstCommaNoComma(frac);
    assert ([sep] + frac)[1..] == frac;
  }

  lemma {:induction false} SignCommaFree(sign: string)
    requires sign == "" || sign == "+" || sign == "-"
    ensures ReplaceAllCommas(sign) == sign
  {
  }

  lemma {:induction false} DigitsCommaFree(s: string)
    requires AllDigits(s)
    ensures ReplaceAllCommas(s) == s
  {
    ReplaceAllCommasNoComma(s);
  }

  lemma {:induction false} CommasOfNumeral(sign: string, whole: string, sep: char, frac: string)
    requires WellFormedNumeral(sign, whole, sep, frac)
    ensures ReplaceAllCommas(Numeral(sign, whole, sep, frac)) == Numeral(sign, whole, '.', frac)
  {
    var prefix := sign + whole;
    ReplaceAllCommasAppend(sign, whole);
    SignCommaFree(sign);
    DigitsCommaFree(whole);
    if |frac| > 0 {
      ReplaceAllCommasAppend(prefix, [sep] + frac);
      ReplaceAllCommasAppend([sep], frac);
      DigitsCommaFree(frac);
    }
  }

  lemma {:induction false} PlainNormalizePy(s: string)
    requires Plain(s)
    ensures RemoveBlanks(Trim(Py, s)) == s
  {
    PlainUntouched(Py, s);
    RemoveBlanksOfNoBlank(s);
  }

  lemma {:induction false} NormalizeNumeralPy(sign: string, whole: string, sep: char, frac: string)
    requires WellFormedNumeral(sign, whole, sep, frac)
    ensures Normalize(Py, Numeral(sign, whole, sep, frac)) == Numeral(sign, whole, '.', frac)
  {
    NumeralPlain(sign, whole, sep, frac);
    PlainNormalizePy(Numeral(sign, whole, sep, frac));
    CommasOfNumeral(sign, whole, sep, frac);
  }

  /** Both variants read the comma of a numeral as its decimal point. */
  lemma {:induction false} NormalizeNumeral(d: Dialect, sign: string, whole: string, sep: char, frac: string)
    requires WellFormedNumeral(sign, whole, sep, frac)
    ensures Normalize(d, Numeral(sign, whole, sep, frac)) == Numeral(sign, whole, '.', frac)
  {
    if d == Js {
      NormalizeNumeralJs(sign, whole, sep, frac);
    } else {
      NormalizeNumeralPy(sign, whole, sep, frac);
    }
  }

  lemma {:induction false} NumeralParts(sign: string, whole: string, frac: string)
    requires WellFormedNumeral(sign, whole, '.', frac)
    ensures AmountShape(Numeral(sign, whole, '.', frac))
    ensures WholePart(Numeral(sign, whole, '.', frac)) == whole
    ensures FractionPart(Numeral(sign, whole, '.', frac)) == frac
  {
    var s := Numeral(sign, whole, '.', frac);
    var u := Unsigned(s);
    UnsignedNumeral(sign, whole, frac);
    UnsignedParts(u, whole, frac);
  }

  lemma {:induction false} UnsignedNumeral(sign: string, whole: string, frac: string)
    requires WellFormedNumeral(sign, whole, '.', frac)
    ensures Unsigned(Numeral(sign, whole, '.', frac)) == whole + (if |frac| == 0 then "" else "." + frac)
  {
    var s := Numeral(sign, whole, '.', frac);
    if sign == "" {
      assert s == whole + (if |frac| == 0 then "" else "." + frac);
      assert !IsSign(s[0]);
    } else {
      assert s == sign + (whole + (if |frac| == 0 then "" else "." + frac));
    }
  }

  /** The digits, then the separator and the fraction if any. */
  lemma {:induction false} UnsignedParts(u: string, whole: string, frac: string)
    requires |whole| >= 1 && AllDigits(whole) && |frac| <= 2 && AllDigits(frac)
    requires u == whole + (if |frac| == 0 then "" else "." + frac)
    ensures DigitRun(u, 0) == |whole| && u[..|whole|] == whole
    ensures |frac| == 0 ==> |u| == |whole|
    ensures |frac| > 0 ==> u[|whole|] == '.' && |u| == |whole| + 1 + |frac| && u[|whole| + 1..] == frac
  {
    assert u[0..|whole|] == whole;
    DigitRunExact(u, 0, |whole|);
  }

  /** For a numeral without whitespace, both variants return
      sign * (integer part * 100 + fraction padded right to two digits). */
  lemma {:induction false} ToCentsNumeral(d: Dialect, sign: string, whole: string, sep: char, frac: string)
    requires WellFormedNumeral(sign, whole, sep, frac)
    ensures var m: int := DigitsToNat(whole) * 100 + DigitsToNat(PadFraction(frac));
      ToCents(d, Numeral(sign, whole, sep, frac)) == Cents(if sign == "-" then -m else m)
  {
    var t := NormalFormOfNumeral(d, sign, whole, sep, frac);
    SignedMagnitude(d, Numeral(sign, whole, sep, frac));
  }

  /** What the normalised numeral looks like, without revealing it is a concatenation (which
      keeps the solver from case-splitting on every index of it). */
  lemma {:induction false} NormalFormOfNumeral(d: Dialect, sign: string, whole: string, sep: char, frac: string)
    returns (t: string)
    requires WellFormedNumeral(sign, whole, sep, frac)
    ensures Normalize(d, Numeral(sign, whole, sep, frac)) == t
    ensures AmountShape(t) && Magnitude(t) == DigitsToNat(whole) * 100 + DigitsToNat(PadFraction(frac))
    ensures |t| > 0 && (t[0] == '-' <==> sign == "-")
  {
    t := Numeral(sign, whole, '.', frac);
    NormalizeNumeral(d, sign, whole, sep, frac);
    NumeralParts(sign, whole, frac);
    NumeralSign(sign, whole, frac);
  }

  lemma {:induction false} SignedMagnitude(d: Dialect, raw: string)
    requires AmountShape(Normalize(d, raw))
    ensures var s := Normalize(d, raw);
      ToCents(d, raw) == Cents(if s[0] == '-' then -(Magnitude(s) as int) else Magnitude(s))
  {
    NormalizedNoFinalNewline(d, raw);
  }

  lemma {:induction false} NumeralSign(sign: string, whole: string, frac: string)
    requires WellFormedNumeral(sign, whole, '.', frac)
    ensures var t := Numeral(sign, whole, '.', frac); |t| > 0 && (t[0] == '-' <==> sign == "-")
  {
    var t := Numeral(sign, whole, '.', frac);
    if sign == "" {
      assert t[0] == whole[0];
    } else {
      assert t[0] == sign[0];
    }
  }

  /** An absent fraction counts as `"00"`, worth nothing. */
  lemma NoFraction()
    ensures PadFraction("") == "00" && DigitsToNat("00") == 0
  {
    assert "0" + "0" == "00";
    LeadingZero("0");
    DigitsValue("0", 0);
  }

  /** The examples of the `to_cents` documentation comment, plus a signed decimal comma. */
  lemma {:induction false} ToCentsDocExample1(d: Dialect)
    ensures ToCents(d, "2453.13") == Cents(245313)
  {
    DigitsValue("2453", 2453);
    DigitsValue("13", 13);
    assert PadFraction("13") == "13";
    assert Numeral("", "2453", '.', "13") == "2453.13";
    ToCentsNumeral(d, "", "2453", '.', "13");
  }

  lemma {:induction false} ToCentsDocExample2(d: Dialect)
    ensures ToCents(d, "2453,1") == Cents(245310)
  {
    DigitsValue("2453", 2453);
    DigitsValue("10", 10);
    assert PadFraction("1") == "10";
    assert Numeral("", "2453", ',', "1") == "2453,1";
    ToCentsNumeral(d, "", "2453", ',', "1");
  }

  lemma {:induction false} ToCentsDocExample3(d: Dialect)
    ensures ToCents(d, "2453") == Cents(245300)
  {
    DigitsValue("2453", 2453);
    ToCentsOfDigits(d, "2453", 2453);
  }

  /** A bare digit string is read as that many whole units. */
  lemma {:induction false} ToCentsOfDigits(d: Dialect, w: string, n: nat)
    requires |w| >= 1 && AllDigits(w) && DigitsToNat(w) == n
    ensures ToCents(d, w) == Cents(n * 100)
  {
    NoFraction();
    assert Numeral("", w, '.', "") == w;
    ToCentsNumeral(d, "", w, '.', "");
  }

  lemma {:induction false} ToCentsDocExample4(d: Dialect)
    ensures ToCents(d, "-0,5") == Cents(-50)
  {
    DigitsValue("0", 0);
    DigitsValue("50", 50);
    assert PadFraction("5") == "50";
    assert Numeral("-", "0", ',', "5") == "-0,5";
    ToCentsNumeral(d, "-", "0", ',', "5");
  }
}
