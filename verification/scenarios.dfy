/** Concrete runs of the handlers: the worked examples of the bot's documentation and the
    inputs on which the two variants part ways. */
module Scenarios {
  import opened Wrappers
  import opened Chars
  import opened Decimal
  import opened Amount
  import opened Message
  import opened Ledger
  import opened Bot
  import opened ParseExamples

  // ---------------------------------------------------------------------------
  // `/settotal 1 000.00`: the worker reads only the first word of the argument

  const SetTotalText: string := "/settotal 1 000.00"

  lemma {:induction false} SetTotalWords(d: Dialect)
    ensures WordRun(d, SetTotalText, 0) == 9
    ensures SpaceRun(d, SetTotalText, 9) == 1
    ensures SpaceRun(d, SetTotalText, 0) == 0
  {
    CommandWord(d, SetTotalText);
    CommandGap(d, SetTotalText);
  }

  lemma {:induction false} CommandWord(d: Dialect, t: string)
    requires t == SetTotalText
    ensures WordRun(d, t, 0) == 9
  {
    assert t[0..9] == "/settotal";
    assert NoSpace(d, t[0..9]);
    WordRunExact(d, t, 0, 9);
  }

  lemma {:induction false} CommandGap(d: Dialect, t: string)
    requires t == SetTotalText
    ensures SpaceRun(d, t, 9) == 1 && SpaceRun(d, t, 0) == 0
  {
    assert t[9..10] == " ";
    assert AllSpace(d, t[9..10]);
    SpaceRunExact(d, t, 9, 10);
  }

  lemma JsArgumentOfSetTotal()
    ensures JsArgument(SetTotalText) == Some("1")
  {
    var t := SetTotalText;
    SetTotalWords(Js);
    assert t[10..11] == "1";
    WordRunExact(Js, t, 10, 11);
  }

  lemma PyArgumentOfSetTotal()
    ensures PyArgument(SetTotalText) == Some("1 000.00")
  {
    SetTotalWords(Py);
  }

  lemma CommandOfSetTotal()
    ensures CommandOf(SetTotalText) == Some("settotal")
  {
    CommandName(SetTotalText);
  }

  lemma {:induction false} CommandName(t: string)
    requires t == SetTotalText
    ensures CommandOf(t) == Some("settotal")
  {
    CommandWord(Py, t);
    assert t[1..9] == "settotal";
    assert '@' !in "settotal";
    NoAt("settotal");
  }

  lemma ToCentsOne()
    ensures ToCents(Js, "1") == Cents(100)
  {
    assert DigitsToNat("1") == 1;
    assert PadFraction("") == "00" && DigitsToNat("00") == 0;
    assert Numeral("", "1", '.', "") == "1";
    ToCentsNumeral(Js, "", "1", '.', "");
  }

  /** Conversion looks only at the normalised string. */
  lemma {:induction false} SameNormalForm(d: Dialect, a: string, b: string)
    requires Normalize(d, a) == Normalize(d, b)
    ensures ToCents(d, a) == ToCents(d, b)
  {
  }

  /** Deleting one blank between two pieces. */
  lemma {:induction false} DropBlank(x: string, y: string)
    ensures RemoveBlanks(x + " " + y) == RemoveBlanks(x + y)
  {
    RemoveBlanksAppend(x + " ", y);
    RemoveBlanksAppend(x, " ");
    RemoveBlanksAppend(x, y);
    assert RemoveBlanks(" ") == "" by {
      assert " "[..0] == "";
    }
  }

  lemma {:induction false} RemoveBlanksThousand(a: string, b: string)
    requires a == "1 000.00" && b == "1000.00"
    ensures RemoveBlanks(a) == RemoveBlanks(b)
  {
    assert a == "1" + " " + "000.00";
    assert b == "1" + "000.00";
    DropBlank("1", "000.00");
  }

  /** Strings that trimming leaves alone and that agree once their blanks are gone have the
      same normal form in the script. */
  lemma {:induction false} SameWithoutBlanks(a: string, b: string)
    requires Trim(Py, a) == a && Trim(Py, b) == b && RemoveBlanks(a) == RemoveBlanks(b)
    ensures Normalize(Py, a) == Normalize(Py, b)
  {
  }

  lemma {:induction false} NormalizeThousand(a: string, b: string)
    requires a == "1 000.00" && b == "1000.00"
    ensures Normalize(Py, a) == Normalize(Py, b)
  {
    TrimThousand(a, b);
    RemoveBlanksThousand(a, b);
    SameWithoutBlanks(a, b);
  }

  lemma {:induction false} TrimThousand(a: string, b: string)
    requires a == "1 000.00" && b == "1000.00"
    ensures Trim(Py, a) == a && Trim(Py, b) == b
  {
    TrimNoOp(Py, a);
    TrimNoOp(Py, b);
  }

  lemma ThousandValue()
    ensures DigitsToNat("1000") == 1000
  {
    assert NatToDigits(1000) == "1000";
    DigitsRoundTrip(1000);
  }

  lemma ThousandNumeral()
    ensures Numeral("", "1000", '.', "00") == "1000.00"
  {
  }

  lemma ZeroFraction()
    ensures PadFraction("00") == "00" && DigitsToNat("00") == 0
  {
  }

  lemma ToCentsThousandPlain()
    ensures ToCents(Py, "1000.00") == Cents(100000)
  {
    ThousandValue();
    ThousandNumeral();
    ZeroFraction();
    ToCentsNumeral(Py, "", "1000", '.', "00");
  }

  lemma {:induction false} ToCentsThousand(raw: string)
    requires raw == "1 000.00"
    ensures ToCents(Py, raw) == Cents(100000)
  {
    var plain := "1000.00";
    assert Normalize(Py, raw) == Normalize(Py, plain) by {
      NormalizeThousand(raw, plain);
    }
    SameNormalForm(Py, raw, plain);
    ToCentsThousandPlain();
  }

  lemma {:induction false} SetTotalTrimmed(t: string)
    requires t == SetTotalText
    ensures Trim(Js, t) == t && t != "/where" && t != "/start" && StartsWith(t, "/settotal")
  {
    SetTotalUntrimmed(t);
    SetTotalCommand(t);
  }

  lemma {:induction false} SetTotalUntrimmed(t: string)
    requires t == SetTotalText
    ensures Trim(Js, t) == t
  {
    TrimNoOp(Js, t);
  }

  lemma {:induction false} SetTotalCommand(t: string)
    requires t == SetTotalText
    ensures t != "/where" && t != "/start" && StartsWith(t, "/settotal")
  {
    assert t[..9] == "/settotal";
    assert |t| != |"/where"| && |t| != |"/start"|;
  }

  lemma {:induction false} SetTotalJs(u: Update)
    requires u.chat != 0 && u.thread == Some(BalanceThread) && u.text == SetTotalText
    ensures FetchJs(EmptyStore, u) == SetCommand(Js, EmptyStore, u.chat, u.thread, Some("1"), Total)
  {
    SetTotalTrimmed(u.text);
    JsArgumentOfSetTotal();
  }

  lemma {:induction false} SetTotalPy(u: Update)
    requires u.thread == Some(BalanceThread) && u.text == SetTotalText
    ensures HandlePy(EmptyStore, u) == SetCommand(Py, EmptyStore, u.chat, u.thread, Some("1 000.00"), Total)
  {
    CommandOfSetTotal();
    PyArgumentOfSetTotal();
  }

  /** In the balance thread, `/settotal 1 000.00` sets the general balance to 1.00 in the
      worker and to 1000.00 in the script. */
  lemma {:induction false} SetTotalArgumentSplit(u: Update)
    requires u.chat != 0 && u.thread == Some(BalanceThread) && u.text == SetTotalText
    ensures StateOf(Js, FetchJs(EmptyStore, u), u.chat).total == 100
    ensures StateOf(Py, HandlePy(EmptyStore, u), u.chat).total == 100000
  {
    SetTotalJs(u);
    ToCentsOne();
    SetCommandSpec(Js, EmptyStore, u.chat, u.thread, Some("1"), Total);
    SetTotalPy(u);
    ToCentsThousand("1 000.00");
    SetCommandSpec(Py, EmptyStore, u.chat, u.thread, Some("1 000.00"), Total);
  }

  // ---------------------------------------------------------------------------
  // The worked examples of the ledger rules, end to end

  /** A text that does not start with `/` is an amount message for the script. */
  lemma {:induction false} PlainTextPy(s: Store, u: Update)
    requires |u.text| > 0 && u.text[0] != '/'
    ensures HandlePy(s, u) == AmountMessage(Py, s, u.chat, u.thread, u.text)
  {
  }

  /** A fresh chat of the script holds a food budget of 20000.00; `453.20 lunch` in the food
      thread spends 453.20 of it and logs an outgoing entry with the note `lunch`. */
  lemma {:induction false} LunchInFoodThread(chat: int, text: string)
    requires text == "453.20 lunch"
    ensures var r := HandlePy(EmptyStore, Update(chat, Some(FoodThread), text));
      && StateOf(Py, r, chat) == Balances(0, 1954680)
      && LogOf(r, chat) == [Entry(FoodThread, FoodSpend, 45320, Out, "lunch")]
  {
    var p := Parsed(45320, "lunch", 1);
    assert CategoryOf(Py, FoodThread) == Some(FoodSpend);
    PlainTextPy(EmptyStore, Update(chat, Some(FoodThread), text));
    Lunch(Py, text);
    ApplyOutcomeSpec(Py, EmptyStore, chat, FoodThread, p);
    FirstEntry(Py, Entry(FoodThread, FoodSpend, 45320, Out, "lunch"));
  }

  /** The first entry of an empty log is the whole log, in both variants. */
  lemma {:induction false} FirstEntry(d: Dialect, e: Entry)
    ensures Logged(d, [], e) == [e]
  {
  }

  /** `1000 salary` in the top-up thread credits 1000.00 to the general balance. */
  lemma {:induction false} SalaryInTopupThread(d: Dialect, chat: int, text: string)
    requires text == "1000 salary"
    ensures var r := AmountMessage(d, EmptyStore, chat, Some(TopupThread), text);
      && StateOf(d, r, chat) == DefaultBalances(d).(total := 100000)
      && LogOf(r, chat) == [Entry(TopupThread, Topup, 100000, In, "salary")]
  {
    var p := Parsed(100000, "salary", 1);
    assert CategoryOf(d, TopupThread) == Some(Topup);
    Salary(d, text);
    ApplyOutcomeSpec(d, EmptyStore, chat, TopupThread, p);
    FirstEntry(d, Entry(TopupThread, Topup, 100000, In, "salary"));
  }

  /** `-2000 refund` in the apartment thread turns the expense around: 2000.00 comes back to
      the general balance and the entry is incoming. */
  lemma {:induction false} RefundInApartThread(d: Dialect, s: Store, chat: int, text: string)
    requires text == "-2000 refund" && StateOf(d, s, chat).total == 500000
    ensures var r := AmountMessage(d, s, chat, Some(ApartThread), text);
      && StateOf(d, r, chat) == StateOf(d, s, chat).(total := 700000)
      && Newest(d, LogOf(r, chat)) == Entry(ApartThread, Apart, 200000, In, "refund")
  {
    var p := Parsed(200000, "refund", -1);
    var e := Entry(ApartThread, Apart, 200000, In, "refund");
    assert CategoryOf(d, ApartThread) == Some(Apart);
    Refund(d, text);
    ApplyOutcomeSpec(d, s, chat, ApartThread, p);
    NewestLogged(d, LogOf(s, chat), e);
  }

  lemma {:induction false} NewestLogged(d: Dialect, log: seq<Entry>, e: Entry)
    ensures |Logged(d, log, e)| > 0 && Newest(d, Logged(d, log, e)) == e
  {
  }
}
