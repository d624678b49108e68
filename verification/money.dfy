/** Rendering integer cents for display: `money` of both variants. The sign comes first, then
    the whole units grouped in threes with spaces, a dot, and always two digits of cents. */
module Money {
  import opened Chars
  import opened Decimal
  import opened Amount

  /** The worker's `replace(/\B(?=(\d{3})+(?!\d))/g, " ")` and the script's
      `f"{rub:,}".replace(",", " ")`: a space before every complete group of three digits
      counted from the right. */
  function Group(ds: string): string
    decreases |ds|
  {
    if |ds| <= 3 then ds else Group(ds[..|ds| - 3]) + " " + ds[|ds| - 3..]
  }

  /** A digit string grouped in threes: counted from the right, every fourth character is a
      space and all others are digits; the first character is a digit. */
  predicate SpacedInThrees(g: string) {
    && |g| > 0 && |g| % 4 != 0
    && forall j :: 0 <= j < |g| ==> (g[j] == ' ' <==> (|g| - j) % 4 == 0) && (g[j] == ' ' || IsDigit(g[j]))
  }

  /** `String(kop).padStart(2, "0")` / `f"{kop:02d}"`. */
  function TwoDigits(k: nat): (r: string)
    requires k < 100
    ensures |r| == 2 && AllDigits(r) && DigitsToNat(r) == k
  {
    DigitsRoundTrip(k);
    if k < 10 then
      LeadingZero(NatToDigits(k));
      "0" + NatToDigits(k)
    else
      NatToDigits(k)
  }

  function Abs(c: int): nat {
    if c < 0 then -c else c
  }

  function SignPrefix(c: int): string {
    if c < 0 then "-" else ""
  }

  /** The displayed form of an amount of cents. */
  function Money(cents: int): (r: string)
    ensures |r| >= 4 && (r[0] == '-' <==> cents < 0) && (r[0] == '-' || IsDigit(r[0]))
    ensures r[|r| - 3] == '.' && IsDigit(r[|r| - 2]) && IsDigit(r[|r| - 1])
  {
    var g := Group(NatToDigits(Abs(cents) / 100));
    GroupSpaced(NatToDigits(Abs(cents) / 100));
    assert g[0] != ' ';
    SignPrefix(cents) + g + "." + TwoDigits(Abs(cents) % 100)
  }

  // ---------------------------------------------------------------------------
  // Grouping

  lemma {:induction false} GroupSpaced(ds: string)
    requires |ds| >= 1 && AllDigits(ds)
    ensures SpacedInThrees(Group(ds))
    decreases |ds|
  {
    if |ds| > 3 {
      var head := ds[..|ds| - 3];
      var tail := ds[|ds| - 3..];
      GroupSpaced(head);
      assert Group(ds) == Group(head) + " " + tail;
      SpacedAppend(Group(head), tail);
    }
  }

  /** One more group of three digits keeps the spacing. */
  lemma {:induction false} SpacedAppend(g: string, tail: string)
    requires SpacedInThrees(g) && |tail| == 3 && AllDigits(tail)
    ensures SpacedInThrees(g + " " + tail)
  {
    var r := g + " " + tail;
    forall j | 0 <= j < |r|
      ensures (r[j] == ' ' <==> (|r| - j) % 4 == 0) && (r[j] == ' ' || IsDigit(r[j]))
    {
      if j < |g| {
        assert r[j] == g[j];
        FourMore(|g| - j);
      } else if j > |g| {
        assert r[j] == tail[j - |g| - 1];
      }
    }
    FourMore(|g|);
  }

  lemma {:induction false} FourMore(n: nat)
    ensures (n + 4) % 4 == n % 4
  {
  }

  lemma {:induction false} GroupRemoveSpaces(d: Dialect, ds: string)
    requires AllDigits(ds)
    ensures RemoveSpaces(d, Group(ds)) == ds
    decreases |ds|
  {
    if |ds| <= 3 {
      DigitsNoSpace(d, ds);
    } else {
      var head := ds[..|ds| - 3];
      var tail := ds[|ds| - 3..];
      GroupRemoveSpaces(d, head);
      assert Group(ds) == Group(head) + " " + tail;
      JoinRemoveSpaces(d, Group(head), head, tail);
      assert head + tail == ds;
    }
  }

  lemma {:induction false} JoinRemoveSpaces(d: Dialect, g: string, head: string, tail: string)
    requires RemoveSpaces(d, g) == head && AllDigits(tail)
    ensures RemoveSpaces(d, g + " " + tail) == head + tail
  {
    assert RemoveSpaces(d, g + " ") == head by {
      RemoveSpacesAppend(d, g, " ");
      RemoveSpacesBlank(d);
      assert head + "" == head;
    }
    assert RemoveSpaces(d, tail) == tail by {
      DigitsNoSpace(d, tail);
    }
    RemoveSpacesAppend(d, g + " ", tail);
  }

  lemma {:induction false} GroupRemoveBlanks(ds: string)
    requires AllDigits(ds)
    ensures RemoveBlanks(Group(ds)) == ds
    decreases |ds|
  {
    if |ds| <= 3 {
      RemoveBlanksOfNoBlank(ds);
    } else {
      var head := ds[..|ds| - 3];
      var tail := ds[|ds| - 3..];
      GroupRemoveBlanks(head);
      assert Group(ds) == Group(head) + " " + tail;
      JoinRemoveBlanks(Group(head), head, tail);
      assert head + tail == ds;
    }
  }

  lemma {:induction false} JoinRemoveBlanks(g: string, head: string, tail: string)
    requires RemoveBlanks(g) == head && AllDigits(tail)
    ensures RemoveBlanks(g + " " + tail) == head + tail
  {
    assert RemoveBlanks(g + " ") == head by {
      RemoveBlanksAppend(g, " ");
      assert RemoveBlanks(" ") == "" by {
        assert " "[..0] == "";
      }
      assert head + "" == head;
    }
    assert RemoveBlanks(tail) == tail by {
      RemoveBlanksOfNoBlank(tail);
    }
    RemoveBlanksAppend(g + " ", tail);
  }

  /** A rendered amount is its sign, its grouped whole units, a dot and two cent digits. */
  lemma {:induction false} MoneyParts(cents: int)
    ensures Money(cents) == SignPrefix(cents) + Group(NatToDigits(Abs(cents) / 100)) + ("." + TwoDigits(Abs(cents) % 100))
  {
  }

  lemma {:induction false} MiddleSlice(s: string, g: string, p: string)
    requires |p| == 2
    ensures var r := s + g + ("." + p); r[|s|..|r| - 3] == g
  {
  }

  /** The whole units of a rendered amount are the decimal digits of `|cents| / 100`, spaced
      in groups of three. */
  lemma {:induction false} MoneyGrouping(cents: int)
    ensures var r := Money(cents);
      var whole := r[|SignPrefix(cents)|..|r| - 3];
      && SpacedInThrees(whole)
      && RemoveSpaces(Js, whole) == NatToDigits(Abs(cents) / 100)
      && RemoveBlanks(whole) == NatToDigits(Abs(cents) / 100)
  {
    var ds := NatToDigits(Abs(cents) / 100);
    MoneyParts(cents);
    MiddleSlice(SignPrefix(cents), Group(ds), TwoDigits(Abs(cents) % 100));
    GroupSpaced(ds);
    GroupRemoveSpaces(Js, ds);
    GroupRemoveBlanks(ds);
  }

  // ---------------------------------------------------------------------------
  // Round trip: reading a rendered amount back gives the amount

  /** The pieces a rendered amount is made of, named by what normalisation needs of them. */
  predicate RenderedPieces(s: string, g: string, ds: string, p: string) {
    && (s == "" || s == "-")
    && |ds| >= 1 && AllDigits(ds)
    && |p| == 2 && AllDigits(p)
    && |g| > 0 && IsDigit(g[0]) && IsDigit(g[|g| - 1])
  }

  lemma {:induction false} RenderedTrimmed(d: Dialect, s: string, g: string, ds: string, p: string)
    requires RenderedPieces(s, g, ds, p)
    ensures Trim(d, s + g + ("." + p)) == s + g + ("." + p)
  {
    var r := s + g + ("." + p);
    assert r[|r| - 1] == p[1];
    if s == "" {
      assert r[0] == g[0];
    } else {
      assert r[0] == '-';
    }
    TrimNoOp(d, r);
  }

  /** Normalisation of a trimmed string whose whitespace-free form has no comma. */
  lemma {:induction false} NormalizeUntrimmed(d: Dialect, r: string, n: string)
    requires Trim(d, r) == r && forall i :: 0 <= i < |n| ==> n[i] != ','
    requires d == Js ==> RemoveSpaces(Js, r) == n
    requires d == Py ==> RemoveBlanks(r) == n
    ensures Normalize(d, r) == n
  {
    if d == Js {
      ReplaceFirstCommaNoComma(n);
    } else {
      ReplaceAllCommasNoComma(n);
    }
  }

  lemma {:induction false} RenderedDropsSpacesJs(s: string, g: string, ds: string, p: string)
    requires RenderedPieces(s, g, ds, p) && RemoveSpaces(Js, g) == ds
    ensures RemoveSpaces(Js, s + g + ("." + p)) == s + ds + ("." + p)
  {
    RemoveSpacesAppend(Js, s + g, "." + p);
    RemoveSpacesAppend(Js, s, g);
    assert NoSpace(Js, s) && NoSpace(Js, "." + p);
    RemoveSpacesOfNoSpace(Js, s);
    RemoveSpacesOfNoSpace(Js, "." + p);
  }

  lemma {:induction false} RenderedDropsBlanksPy(s: string, g: string, ds: string, p: string)
    requires RenderedPieces(s, g, ds, p) && RemoveBlanks(g) == ds
    ensures RemoveBlanks(s + g + ("." + p)) == s + ds + ("." + p)
  {
    RemoveBlanksAppend(s + g, "." + p);
    RemoveBlanksAppend(s, g);
    RemoveBlanksOfNoBlank(s);
    RemoveBlanksOfNoBlank("." + p);
  }

  lemma {:induction false} RenderedNumeral(s: string, ds: string, p: string)
    requires RenderedPieces(s, "0", ds, p)
    ensures s + ds + ("." + p) == Numeral(s, ds, '.', p)
    ensures var n := Numeral(s, ds, '.', p); forall i :: 0 <= i < |n| ==> n[i] != ','
  {
    var n := s + ds + ("." + p);
    forall i | 0 <= i < |n| ensures n[i] != ',' {
      if i < |s| {
        assert n[i] == s[i];
      } else if i < |s| + |ds| {
        assert n[i] == ds[i - |s|];
      } else if i > |s| + |ds| {
        assert n[i] == p[i - |s| - |ds| - 1];
      }
    }
  }

  /** Normalising a rendered amount drops the group spaces and nothing else. */
  lemma {:induction false} NormalizeMoney(d: Dialect, cents: int)
    ensures Normalize(d, Money(cents))
      == Numeral(SignPrefix(cents), NatToDigits(Abs(cents) / 100), '.', TwoDigits(Abs(cents) % 100))
  {
    var ds := NatToDigits(Abs(cents) / 100);
    var g := Group(ds);
    MoneyParts(cents);
    GroupSpaced(ds);
    assert IsDigit(g[0]) && IsDigit(g[|g| - 1]);
    var sp := SignPrefix(cents);
    var p := TwoDigits(Abs(cents) % 100);
    assert RenderedPieces(sp, g, ds, p);
    RenderedTrimmed(d, sp, g, ds, p);
    RenderedNumeral(sp, ds, p);
    if d == Js {
      GroupRemoveSpaces(Js, ds);
      RenderedDropsSpacesJs(sp, g, ds, p);
    } else {
      GroupRemoveBlanks(ds);
      RenderedDropsBlanksPy(sp, g, ds, p);
    }
    NormalizeUntrimmed(d, sp + g + ("." + p), Numeral(sp, ds, '.', p));
  }

  lemma {:induction false} MoneyNormalForm(d: Dialect, cents: int) returns (t: string)
    ensures Normalize(d, Money(cents)) == t
    ensures AmountShape(t) && Magnitude(t) == Abs(cents)
    ensures |t| > 0 && (t[0] == '-' <==> cents < 0)
  {
    var s := SignPrefix(cents);
    var ds := NatToDigits(Abs(cents) / 100);
    var p := TwoDigits(Abs(cents) % 100);
    t := Numeral(s, ds, '.', p);
    NormalizeMoney(d, cents);
    NumeralParts(s, ds, p);
    NumeralSign(s, ds, p);
    assert PadFraction(p) == p;
    DigitsRoundTrip(Abs(cents) / 100);
  }

  /** `toCentsSigned(money(c)) == c` and `to_cents(money(c)) == c` for every integer `c`. */
  lemma {:induction false} MoneyRoundTrip(d: Dialect, cents: int)
    ensures ToCents(d, Money(cents)) == Cents(cents)
  {
    var t := MoneyNormalForm(d, cents);
    SignedMagnitude(d, Money(cents));
  }
}
