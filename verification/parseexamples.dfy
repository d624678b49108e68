/** Amount lines of the bot's documentation and the lines on which the two variants read an
    amount differently, worked out through the ordinary line shape. Each line is taken apart
    by small lemmas (its shape, its amount, its note) and put together by `ParsedLine`. */
module ParseExamples {
  import opened Chars
  import opened Decimal
  import opened Amount
  import opened Message
  import opened AmountLine

  /** Dropping the whitespace of `a`, one whitespace character `w` and `b` keeps the digits. */
  lemma {:induction false} DigitsAcross(a: string, w: char, b: string)
    requires AllDigits(a) && AllDigits(b) && !IsDigit(w)
    ensures DigitsOf(a + [w] + b) == a + b
  {
    DigitsOfAppend(a + [w], b);
    DigitsOfAppend(a, [w]);
    DigitsOfDigits(a);
    DigitsOfDigits(b);
    DigitsOfNoDigit([w]);
  }

  /** A note without surrounding whitespace is kept as it is. */
  lemma {:induction false} PlainNote(d: Dialect, t: string, p3: nat, note: string)
    requires p3 <= |t| && t[p3..] == note && 0 < |note|
    requires !IsSpace(d, note[0]) && !IsSpace(d, note[|note| - 1])
    ensures Trim(d, t[p3..]) == note
  {
    TrimNoOp(d, note);
  }

  // ---------------------------------------------------------------------------
  // "12.345": a third fraction digit becomes the note

  lemma {:induction false} ExtraDigitShape(d: Dialect, t: string)
    requires t == "12.345"
    ensures LineShape(d, t, 0, 2, 5, 5)
  {
    assert t[1..2] == "2" && t[3..5] == "34" && t[5..] == "5";
    assert AllDigitOrSpace(d, t[1..2]);
    assert AllDigits(t[3..5]);
    assert AllDot(d, t[5..]);
  }

  lemma {:induction false} ExtraDigitAmount(t: string)
    requires t == "12.345"
    ensures LineAmount(t, 0, 2, 5) == 1234
  {
    assert t[0..2] == "12" && t[3..5] == "34";
    DigitsOfDigits("12");
    assert NatToDigits(12) == "12" && NatToDigits(34) == "34";
    DigitsValue("12", 12);
    DigitsValue("34", 34);
    assert PadFraction("34") == "34";
  }

  lemma {:induction false} ExtraDigitNote(d: Dialect, t: string)
    requires t == "12.345"
    ensures Trim(d, t[5..]) == "5" && LineSign(t, 0) == 1
  {
    PlainNote(d, t, 5, "5");
  }

  lemma {:induction false} ExtraDigitClean(t: string)
    requires t == "12.345"
    ensures !Stray(t[..5])
  {
    assert t[..5] == "12.34";
    NoStray(t[..5]);
  }

  lemma {:induction false} ExtraDigitLine(d: Dialect, t: string)
    requires t == "12.345"
    ensures ParseMessage(d, t) == Parsed(1234, "5", 1)
  {
    ExtraDigitFacts(d, t);
    ParsedLine(d, t, 0, 2, 5, 5, 1234, "5", 1);
  }

  lemma {:induction false} ExtraDigitFacts(d: Dialect, t: string)
    requires t == "12.345"
    ensures LineFacts(d, t, 0, 2, 5, 5, 1234, "5", 1)
  {
    ExtraDigitShape(d, t);
    ExtraDigitAmount(t);
    ExtraDigitNote(d, t);
    ExtraDigitClean(t);
  }

  /** `"12.345"` is 12.34 with the note `"5"`: the pattern stops after two fraction digits and
      nothing requires a blank before the note. */
  lemma {:induction false} ExtraFractionDigit(d: Dialect)
    ensures ParseMessage(d, "12.345") == Parsed(1234, "5", 1)
  {
    ExtraDigitLine(d, "12.345");
  }

  // ---------------------------------------------------------------------------
  // "1 234.50 rent": the blank between digit groups is dropped

  lemma {:induction false} GroupedShape(d: Dialect, t: string)
    requires t == "1 234.50 rent"
    ensures LineShape(d, t, 0, 5, 8, 9)
  {
    assert t[1..5] == " 234" && t[6..8] == "50" && t[8..9] == " " && t[9..] == "rent";
    assert AllDigitOrSpace(d, t[1..5]);
    assert AllDigits(t[6..8]);
    assert AllSpace(d, t[8..9]);
    assert AllDot(d, t[9..]);
  }

  lemma {:induction false} GroupedDigits(t: string)
    requires t == "1 234.50 rent"
    ensures DigitsOf(t[0..5]) == "1234"
  {
    assert t[0..5] == "1" + [' '] + "234";
    DigitsAcross("1", ' ', "234");
    assert "1" + "234" == "1234";
  }

  lemma {:induction false} GroupedAmount(t: string)
    requires t == "1 234.50 rent"
    ensures LineAmount(t, 0, 5, 8) == 123450
  {
    GroupedDigits(t);
    assert t[6..8] == "50";
    assert NatToDigits(1234) == "1234" && NatToDigits(50) == "50";
    DigitsValue("1234", 1234);
    DigitsValue("50", 50);
    assert PadFraction("50") == "50";
  }

  lemma {:induction false} GroupedNote(d: Dialect, t: string)
    requires t == "1 234.50 rent"
    ensures Trim(d, t[9..]) == "rent" && LineSign(t, 0) == 1
  {
    PlainNote(d, t, 9, "rent");
  }

  lemma {:induction false} GroupedClean(t: string)
    requires t == "1 234.50 rent"
    ensures !Stray(t[..8])
  {
    assert t[..8] == "1 234.50";
    NoStray(t[..8]);
  }

  lemma {:induction false} GroupedLine(d: Dialect, t: string)
    requires t == "1 234.50 rent"
    ensures ParseMessage(d, t) == Parsed(123450, "rent", 1)
  {
    GroupedFacts(d, t);
    ParsedLine(d, t, 0, 5, 8, 9, 123450, "rent", 1);
  }

  lemma {:induction false} GroupedFacts(d: Dialect, t: string)
    requires t == "1 234.50 rent"
    ensures LineFacts(d, t, 0, 5, 8, 9, 123450, "rent", 1)
  {
    GroupedShape(d, t);
    GroupedAmount(t);
    GroupedNote(d, t);
    GroupedClean(t);
  }

  /** `"1 234.50 rent"` is 1234.50 with the note `"rent"`, in both variants. */
  lemma {:induction false} GroupedThousands(d: Dialect)
    ensures ParseMessage(d, "1 234.50 rent") == Parsed(123450, "rent", 1)
  {
    GroupedLine(d, "1 234.50 rent");
  }

  // ---------------------------------------------------------------------------
  // "1\t2": a tab inside the numeral

  lemma {:induction false} TabShape(d: Dialect, t: string)
    requires t == "1\t2"
    ensures LineShape(d, t, 0, 3, 3, 3)
  {
    assert t[1..3] == "\t2";
    assert AllDigitOrSpace(d, t[1..3]);
    assert t[3..] == [];
  }

  lemma {:induction false} TabAmount(t: string)
    requires t == "1\t2"
    ensures LineAmount(t, 0, 3, 3) == 1200
  {
    assert t[0..3] == "1" + ['\t'] + "2";
    DigitsAcross("1", '\t', "2");
    assert "1" + "2" == "12";
    assert NatToDigits(12) == "12";
    DigitsValue("12", 12);
    NoFraction();
  }

  lemma {:induction false} TabRestJs(t: string)
    requires t == "1\t2"
    ensures Trim(Js, t[3..]) == "" && LineSign(t, 0) == 1
  {
    assert t[3..] == "";
    TrimNoOp(Js, "");
  }

  lemma {:induction false} TabLineJs(d: Dialect, t: string)
    requires d == Js && t == "1\t2"
    ensures ParseMessage(d, t) == Parsed(1200, "", 1)
  {
    TabFacts(d, t);
    ParsedLine(d, t, 0, 3, 3, 3, 1200, "", 1);
  }

  lemma {:induction false} TabFacts(d: Dialect, t: string)
    requires d == Js && t == "1\t2"
    ensures LineFacts(d, t, 0, 3, 3, 3, 1200, "", 1)
  {
    TabShape(d, t);
    TabAmount(t);
    TabRestJs(t);
  }

  /** The worker reads `"1\t2"` as 12.00, dropping the tab with the other whitespace. */
  lemma TabInNumeralJs()
    ensures ParseMessage(Js, "1\t2") == Parsed(1200, "", 1)
  {
    TabLineJs(Js, "1\t2");
  }

  lemma {:induction false} TabStray(t: string)
    requires t == "1\t2"
    ensures Stray(t[..3])
  {
    StrayAt(t[..3], 1, 2);
  }

  lemma {:induction false} TabLinePy(t: string)
    requires t == "1\t2"
    ensures ParseMessage(Py, t) == Raises
  {
    TabShape(Py, t);
    TabStray(t);
    ParseOfLine(Py, t, 0, 3, 3, 3);
  }

  /** The script raises on `"1\t2"`: only the space is removed, so the tab survives `strip()`
      and `to_cents` raises `ValueError` when the amount pattern rejects `"1\t2"`. */
  lemma TabInNumeralPy()
    ensures ParseMessage(Py, "1\t2") == Raises
  {
    TabLinePy("1\t2");
  }

  // ---------------------------------------------------------------------------
  // "12\t x": a tab between the amount and the note is harmless

  lemma {:induction false} TabBeforeNoteShape(d: Dialect, t: string)
    requires t == "12\t x"
    ensures LineShape(d, t, 0, 2, 2, 4)
  {
    assert t[1..2] == "2" && t[2..4] == "\t " && t[4..] == "x";
    assert AllDigitOrSpace(d, t[1..2]);
    assert AllSpace(d, t[2..4]);
    assert AllDot(d, t[4..]);
  }

  lemma {:induction false} TabBeforeNoteAmount(t: string)
    requires t == "12\t x"
    ensures LineAmount(t, 0, 2, 2) == 1200
  {
    assert t[0..2] == "12";
    DigitsOfDigits("12");
    assert NatToDigits(12) == "12";
    DigitsValue("12", 12);
    NoFraction();
  }

  lemma {:induction false} TabBeforeNoteNotStray(g: string)
    requires g == "12\t "
    ensures !Stray(g)
  {
    forall i, j | 0 <= i < j < |g| && IsPySpace(g[i]) && g[i] != ' '
      ensures !IsDigit(g[j])
    {
      assert i == 2 && j == 3;
    }
  }

  lemma {:induction false} TabBeforeNoteNote(d: Dialect, t: string)
    requires t == "12\t x"
    ensures Trim(d, t[4..]) == "x" && LineSign(t, 0) == 1
  {
    PlainNote(d, t, 4, "x");
  }

  lemma {:induction false} TabBeforeNoteClean(t: string)
    requires t == "12\t x"
    ensures !Stray(t[..4])
  {
    assert t[..4] == "12\t ";
    TabBeforeNoteNotStray(t[..4]);
  }

  lemma {:induction false} TabBeforeNoteLine(d: Dialect, t: string)
    requires t == "12\t x"
    ensures ParseMessage(d, t) == Parsed(1200, "x", 1)
  {
    TabBeforeNoteFacts(d, t);
    ParsedLine(d, t, 0, 2, 2, 4, 1200, "x", 1);
  }

  lemma {:induction false} TabBeforeNoteFacts(d: Dialect, t: string)
    requires t == "12\t x"
    ensures LineFacts(d, t, 0, 2, 2, 4, 1200, "x", 1)
  {
    TabBeforeNoteShape(d, t);
    TabBeforeNoteAmount(t);
    TabBeforeNoteNote(d, t);
    TabBeforeNoteClean(t);
  }

  /** `"12\t x"` is 12.00 with the note `"x"` in both variants: the whitespace after the
      digits belongs to group 1 but holds no digit after it. */
  lemma {:induction false} TabBeforeNote(d: Dialect)
    ensures ParseMessage(d, "12\t x") == Parsed(1200, "x", 1)
  {
    TabBeforeNoteLine(d, "12\t x");
  }

  // ---------------------------------------------------------------------------
  // Zero amounts are not entries

  lemma {:induction false} ZeroShape(d: Dialect, t: string)
    requires t == "0"
    ensures LineShape(d, t, 0, 1, 1, 1)
  {
    assert t[1..1] == [] && t[1..] == [];
  }

  lemma {:induction false} ZeroAmount(t: string)
    requires t == "0"
    ensures LineAmount(t, 0, 1, 1) == 0
  {
    assert t[0..1] == "0";
    DigitsOfDigits("0");
    DigitsValue("0", 0);
    NoFraction();
  }

  lemma {:induction false} ZeroNote(d: Dialect, t: string)
    requires t == "0"
    ensures Trim(d, t[1..]) == "" && LineSign(t, 0) == 1
  {
    assert t[1..] == "";
    TrimNoOp(d, "");
  }

  lemma {:induction false} ZeroClean(t: string)
    requires t == "0"
    ensures !Stray(t[..1])
  {
    NoStray(t[..1]);
  }

  lemma {:induction false} ZeroLine(d: Dialect, t: string)
    requires t == "0"
    ensures ParseMessage(d, t) == Ignored
  {
    ZeroFacts(d, t);
    ParsedLine(d, t, 0, 1, 1, 1, 0, "", 1);
  }

  lemma {:induction false} ZeroFacts(d: Dialect, t: string)
    requires t == "0"
    ensures LineFacts(d, t, 0, 1, 1, 1, 0, "", 1)
  {
    ZeroShape(d, t);
    ZeroAmount(t);
    ZeroNote(d, t);
    ZeroClean(t);
  }

  lemma {:induction false} ZeroIgnored(d: Dialect)
    ensures ParseMessage(d, "0") == Ignored
  {
    ZeroLine(d, "0");
  }

  lemma {:induction false} NegativeZeroShape(d: Dialect, t: string)
    requires t == "-0.00"
    ensures LineShape(d, t, 1, 2, 5, 5)
  {
    assert t[2..2] == [] && t[3..5] == "00" && t[5..] == [];
    assert AllDigits(t[3..5]);
  }

  lemma {:induction false} NegativeZeroAmount(t: string)
    requires t == "-0.00"
    ensures LineAmount(t, 1, 2, 5) == 0
  {
    assert t[1..2] == "0" && t[3..5] == "00";
    DigitsOfDigits("0");
    DigitsValue("0", 0);
    assert PadFraction("00") == "00";
    NoFraction();
  }

  lemma {:induction false} NegativeZeroNote(d: Dialect, t: string)
    requires t == "-0.00"
    ensures Trim(d, t[5..]) == "" && LineSign(t, 1) == -1
  {
    assert t[5..] == "";
    TrimNoOp(d, "");
  }

  lemma {:induction false} NegativeZeroClean(t: string)
    requires t == "-0.00"
    ensures !Stray(t[..5])
  {
    assert t[..5] == "-0.00";
    NoStray(t[..5]);
  }

  lemma {:induction false} NegativeZeroLine(d: Dialect, t: string)
    requires t == "-0.00"
    ensures ParseMessage(d, t) == Ignored
  {
    NegativeZeroFacts(d, t);
    ParsedLine(d, t, 1, 2, 5, 5, 0, "", -1);
  }

  lemma {:induction false} NegativeZeroFacts(d: Dialect, t: string)
    requires t == "-0.00"
    ensures LineFacts(d, t, 1, 2, 5, 5, 0, "", -1)
  {
    NegativeZeroShape(d, t);
    NegativeZeroAmount(t);
    NegativeZeroNote(d, t);
    NegativeZeroClean(t);
  }

  lemma {:induction false} NegativeZeroIgnored(d: Dialect)
    ensures ParseMessage(d, "-0.00") == Ignored
  {
    NegativeZeroLine(d, "-0.00");
  }

  // ---------------------------------------------------------------------------
  // The worked examples of the ledger rules

  lemma {:induction false} LunchShape(d: Dialect, t: string)
    requires t == "453.20 lunch"
    ensures LineShape(d, t, 0, 3, 6, 7)
  {
    assert t[1..3] == "53" && t[4..6] == "20" && t[6..7] == " " && t[7..] == "lunch";
    assert AllDigitOrSpace(d, t[1..3]);
    assert AllDigits(t[4..6]);
    assert AllSpace(d, t[6..7]);
    assert AllDot(d, t[7..]);
  }

  lemma {:induction false} LunchAmount(t: string)
    requires t == "453.20 lunch"
    ensures LineAmount(t, 0, 3, 6) == 45320
  {
    assert t[0..3] == "453" && t[4..6] == "20";
    DigitsOfDigits("453");
    assert NatToDigits(453) == "453" && NatToDigits(20) == "20";
    DigitsValue("453", 453);
    DigitsValue("20", 20);
    assert PadFraction("20") == "20";
  }

  lemma {:induction false} LunchNote(d: Dialect, t: string)
    requires t == "453.20 lunch"
    ensures Trim(d, t[7..]) == "lunch" && LineSign(t, 0) == 1
  {
    PlainNote(d, t, 7, "lunch");
  }

  lemma {:induction false} LunchClean(t: string)
    requires t == "453.20 lunch"
    ensures !Stray(t[..6])
  {
    assert t[..6] == "453.20";
    NoStray(t[..6]);
  }

  /** `"453.20 lunch"` is 453.20 with the note `"lunch"`. */
  lemma {:induction false} Lunch(d: Dialect, t: string)
    requires t == "453.20 lunch"
    ensures ParseMessage(d, t) == Parsed(45320, "lunch", 1)
  {
    LunchFacts(d, t);
    ParsedLine(d, t, 0, 3, 6, 7, 45320, "lunch", 1);
  }

  lemma {:induction false} LunchFacts(d: Dialect, t: string)
    requires t == "453.20 lunch"
    ensures LineFacts(d, t, 0, 3, 6, 7, 45320, "lunch", 1)
  {
    LunchShape(d, t);
    LunchAmount(t);
    LunchNote(d, t);
    LunchClean(t);
  }

  lemma {:induction false} SalaryShape(d: Dialect, t: string)
    requires t == "1000 salary"
    ensures LineShape(d, t, 0, 4, 4, 5)
  {
    assert t[1..4] == "000" && t[4..5] == " " && t[5..] == "salary";
    assert AllDigitOrSpace(d, t[1..4]);
    assert AllSpace(d, t[4..5]);
    assert AllDot(d, t[5..]);
  }

  lemma {:induction false} SalaryAmount(t: string)
    requires t == "1000 salary"
    ensures LineAmount(t, 0, 4, 4) == 100000
  {
    assert t[0..4] == "1000";
    DigitsOfDigits("1000");
    assert NatToDigits(1000) == "1000";
    DigitsValue("1000", 1000);
    NoFraction();
  }

  lemma {:induction false} SalaryNote(d: Dialect, t: string)
    requires t == "1000 salary"
    ensures Trim(d, t[5..]) == "salary" && LineSign(t, 0) == 1
  {
    PlainNote(d, t, 5, "salary");
  }

  lemma {:induction false} SalaryClean(t: string)
    requires t == "1000 salary"
    ensures !Stray(t[..5])
  {
    assert t[..5] == "1000 ";
    NoStray(t[..5]);
  }

  /** `"1000 salary"` is 1000.00 with the note `"salary"`. */
  lemma {:induction false} Salary(d: Dialect, t: string)
    requires t == "1000 salary"
    ensures ParseMessage(d, t) == Parsed(100000, "salary", 1)
  {
    SalaryFacts(d, t);
    ParsedLine(d, t, 0, 4, 4, 5, 100000, "salary", 1);
  }

  lemma {:induction false} SalaryFacts(d: Dialect, t: string)
    requires t == "1000 salary"
    ensures LineFacts(d, t, 0, 4, 4, 5, 100000, "salary", 1)
  {
    SalaryShape(d, t);
    SalaryAmount(t);
    SalaryNote(d, t);
    SalaryClean(t);
  }

  lemma {:induction false} RefundShape(d: Dialect, t: string)
    requires t == "-2000 refund"
    ensures LineShape(d, t, 1, 5, 5, 6)
  {
    assert t[2..5] == "000" && t[5..6] == " " && t[6..] == "refund";
    assert AllDigitOrSpace(d, t[2..5]);
    assert AllSpace(d, t[5..6]);
    assert AllDot(d, t[6..]);
  }

  lemma {:induction false} RefundAmount(t: string)
    requires t == "-2000 refund"
    ensures LineAmount(t, 1, 5, 5) == 200000
  {
    assert t[1..5] == "2000";
    DigitsOfDigits("2000");
    assert NatToDigits(2000) == "2000";
    DigitsValue("2000", 2000);
    NoFraction();
  }

  lemma {:induction false} RefundNote(d: Dialect, t: string)
    requires t == "-2000 refund"
    ensures Trim(d, t[6..]) == "refund"
  {
    PlainNote(d, t, 6, "refund");
  }

  lemma {:induction false} RefundSign(t: string)
    requires t == "-2000 refund"
    ensures LineSign(t, 1) == -1
  {
  }

  lemma {:induction false} RefundClean(t: string)
    requires t == "-2000 refund"
    ensures !Stray(t[..6])
  {
    assert t[..6] == "-2000 ";
    NoStray(t[..6]);
  }

  /** `"-2000 refund"` is 2000.00, negative, with the note `"refund"`. */
  lemma {:induction false} Refund(d: Dialect, t: string)
    requires t == "-2000 refund"
    ensures ParseMessage(d, t) == Parsed(200000, "refund", -1)
  {
    RefundFacts(d, t);
    ParsedLine(d, t, 1, 5, 5, 6, 200000, "refund", -1);
  }

  lemma {:induction false} RefundFacts(d: Dialect, t: string)
    requires t == "-2000 refund"
    ensures LineFacts(d, t, 1, 5, 5, 6, 200000, "refund", -1)
  {
    RefundShape(d, t);
    RefundAmount(t);
    RefundNote(d, t);
    RefundSign(t);
    RefundClean(t);
  }
}
