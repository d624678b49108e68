/** The message handlers of both variants over a plain store.

    The store maps a chat to its balances and its audit log. The worker keeps them in a
    key-value namespace (`state:<chat>`, `entries:<chat>`), the script in two SQLite tables;
    here both are maps. Reading the state of a chat without a row creates the default row,
    which differs between the variants: the worker starts the food budget at 0, the script at
    2000000 cents. A chat without a row therefore looks exactly like a chat holding the
    default, and the properties below are stated over `StateOf`, the balances a chat sees. */
module Bot {
  import opened Wrappers
  import opened Chars
  import opened Amount
  import opened Message
  import opened Ledger
  import opened AuditLog

  datatype Store = Store(states: map<int, Balances>, logs: map<int, seq<Entry>>)

  /** An incoming text message: its chat, its forum thread (absent outside a topic) and its
      text (empty when the message has none). */
  datatype Update = Update(chat: int, thread: Option<int>, text: string)

  const EmptyStore: Store := Store(map[], map[])

  /** The row a chat gets when its state is first read. */
  function DefaultBalances(d: Dialect): Balances {
    Balances(0, if d == Js then 0 else 2000000)
  }

  /** The balances a chat sees. */
  function StateOf(d: Dialect, s: Store, chat: int): Balances {
    if chat in s.states then s.states[chat] else DefaultBalances(d)
  }

  function LogOf(s: Store, chat: int): seq<Entry> {
    if chat in s.logs then s.logs[chat] else []
  }

  /** No chat can tell the two stores apart. */
  ghost predicate SameView(d: Dialect, s: Store, r: Store) {
    forall chat :: StateOf(d, s, chat) == StateOf(d, r, chat) && LogOf(s, chat) == LogOf(r, chat)
  }

  /** Every chat but `chat` sees the same balances and log. */
  ghost predicate OthersUnchanged(d: Dialect, s: Store, r: Store, chat: int) {
    forall c :: c != chat ==> StateOf(d, s, c) == StateOf(d, r, c) && LogOf(s, c) == LogOf(r, c)
  }

  /** `getState` / `ensure_state`: insert the default row when the chat has none. */
  function EnsureState(d: Dialect, s: Store, chat: int): (r: Store)
    ensures chat in r.states && SameView(d, s, r)
  {
    if chat in s.states then s else s.(states := s.states[chat := DefaultBalances(d)])
  }

  /** A chat seen for the first time gets a general balance of 0 and a food budget of 0 in the
      worker and of 20000.00 in the script, and no other row changes. */
  lemma {:induction false} FreshChat(d: Dialect, s: Store, chat: int)
    requires chat !in s.states
    ensures var r := EnsureState(d, s, chat);
      && r.states[chat] == Balances(0, if d == Js then 0 else 2000000)
      && forall c :: c in s.states ==> c in r.states && r.states[c] == s.states[c]
  {
  }

  /** `saveState` / `UPDATE state`. */
  function SaveState(s: Store, chat: int, b: Balances): (r: Store)
    ensures forall d :: StateOf(d, r, chat) == b
    ensures forall d :: OthersUnchanged(d, s, r, chat)
    ensures LogOf(r, chat) == LogOf(s, chat)
  {
    s.(states := s.states[chat := b])
  }

  /** A log after one more entry: newest first and capped in the worker, appended in the script. */
  function Logged(d: Dialect, log: seq<Entry>, e: Entry): seq<Entry> {
    if d == Js then AddEntry(log, e) else AppendEntry(log, e)
  }

  /** The most recent entry of a non-empty log. */
  function Newest(d: Dialect, log: seq<Entry>): Entry
    requires |log| > 0
  {
    if d == Js then log[0] else log[|log| - 1]
  }

  /** `addEntry` / `add_entry`. */
  function Record(d: Dialect, s: Store, chat: int, e: Entry): (r: Store)
    ensures forall d' :: StateOf(d', r, chat) == StateOf(d', s, chat)
    ensures forall d' :: OthersUnchanged(d', s, r, chat)
    ensures |LogOf(r, chat)| > 0 && Newest(d, LogOf(r, chat)) == e
  {
    s.(logs := s.logs[chat := Logged(d, LogOf(s, chat), e)])
  }

  // ---------------------------------------------------------------------------
  // The argument of `/settotal` and `/setfood`

  /** `text.split(/\s+/, 2)[1]`: the word after the first run of whitespace, or nothing when
      the text has no whitespace at all. */
  function JsArgument(text: string): (r: Option<string>)
    ensures r.None? <==> NoSpace(Js, text)
    ensures r.Some? ==> NoSpace(Js, r.value)
  {
    var w := WordRun(Js, text, 0);
    if w == |text| then
      assert text[0..|text|] == text;
      None
    else
      var j := w + SpaceRun(Js, text, w);
      Some(text[j..j + WordRun(Js, text, j)])
  }

  /** `text.split(maxsplit=1)[1]`: everything after the first word and the whitespace that
      follows it, or nothing when the text holds at most one word. */
  function PyArgument(text: string): (r: Option<string>)
    ensures r.Some? ==> 0 < |r.value| <= |text| && r.value == text[|text| - |r.value|..]
    ensures r.Some? ==> !IsSpace(Py, r.value[0])
  {
    var i := SpaceRun(Py, text, 0);
    var k := i + WordRun(Py, text, i);
    var j := k + SpaceRun(Py, text, k);
    if j == |text| then None else Some(text[j..])
  }

  /** Where the worker's argument sits: a first word, whitespace, the argument, and the rest,
      which is empty or starts with whitespace. */
  lemma {:induction false} JsArgumentParts(text: string) returns (a: string, sp: string, rest: string)
    requires JsArgument(text).Some?
    ensures var r := JsArgument(text).value;
      && text == a + sp + r + rest
      && NoSpace(Js, a) && |sp| > 0 && AllSpace(Js, sp) && NoSpace(Js, r)
      && (rest == "" || IsSpace(Js, rest[0]))
  {
    var w, j, e := JsArgumentAt(text);
    a, sp, rest := text[..w], text[w..j], text[e..];
    WordGapWord(text, w, j, e);
  }

  /** The positions `JsArgument` cuts at, with what the runs between them hold. */
  lemma {:induction false} JsArgumentAt(text: string) returns (w: nat, j: nat, e: nat)
    requires JsArgument(text).Some?
    ensures w < j <= e <= |text| && JsArgument(text).value == text[j..e]
    ensures NoSpace(Js, text[0..w]) && AllSpace(Js, text[w..j]) && NoSpace(Js, text[j..e])
    ensures e == |text| || IsSpace(Js, text[e])
  {
    w := WordRun(Js, text, 0);
    j := w + SpaceRun(Js, text, w);
    e := j + WordRun(Js, text, j);
    assert IsSpace(Js, text[w]);
  }

  /** A word, a gap of whitespace, a second word, and a rest that starts with whitespace. */
  lemma {:induction false} WordGapWord(text: string, w: nat, j: nat, e: nat)
    requires w < j <= e <= |text|
    requires NoSpace(Js, text[0..w]) && AllSpace(Js, text[w..j]) && NoSpace(Js, text[j..e])
    requires e == |text| || IsSpace(Js, text[e])
    ensures text == text[..w] + text[w..j] + text[j..e] + text[e..]
    ensures NoSpace(Js, text[..w]) && (text[e..] == "" || IsSpace(Js, text[e..][0]))
  {
    assert text[0..w] == text[..w];
    Pieces(text, w, j, e);
  }

  lemma {:induction false} Pieces(s: string, i: nat, j: nat, k: nat)
    requires i <= j <= k <= |s|
    ensures s == s[..i] + s[i..j] + s[j..k] + s[k..]
  {
  }

  /** The script's argument is what follows exactly one word and the whitespace after it; no
      argument means the text is blank or a single word. */
  lemma {:induction false} PyArgumentParts(text: string) returns (a: string, w: string, sp: string)
    ensures var r := PyArgument(text);
      && AllSpace(Py, a) && NoSpace(Py, w) && AllSpace(Py, sp)
      && (r.Some? ==> text == a + w + sp + r.value && |w| > 0 && |sp| > 0)
      && (r.None? ==> text == a + w + sp)
  {
    var i := SpaceRun(Py, text, 0);
    var k := i + WordRun(Py, text, i);
    var j := k + SpaceRun(Py, text, k);
    assert PyArgument(text) == if j == |text| then None else Some(text[j..]);
    a, w, sp := text[..i], text[i..k], text[k..j];
    assert AllSpace(Py, a) by {
      assert text[0..i] == a;
    }
    Pieces(text, i, k, j);
    if j == |text| {
      assert text[j..] == [];
    }
  }

  // ---------------------------------------------------------------------------
  // `/settotal` and `/setfood`

  /** The effect of a set command: only in the balance thread, only with an argument, only
      when the argument is an amount; then the chosen field is replaced. */
  function SetCommand(d: Dialect, s: Store, chat: int, thread: Option<int>, arg: Option<string>, which: Balance): Store {
    if thread != Some(BalanceThread) then s
    else
      match arg
      case None => s
      case Some(a) =>
        match ToCents(d, a)
        case BadAmount => s
        case Cents(c) => SaveState(EnsureState(d, s, chat), chat, Put(StateOf(d, s, chat), which, c))
  }

  predicate SetAccepted(d: Dialect, thread: Option<int>, arg: Option<string>) {
    thread == Some(BalanceThread) && arg.Some? && ToCents(d, arg.value).Cents?
  }

  /** A rejected set command changes nothing; an accepted one replaces its own field of its
      own chat with the amount and leaves the other field, the log and every other chat alone. */
  lemma {:induction false} SetCommandSpec(d: Dialect, s: Store, chat: int, thread: Option<int>, arg: Option<string>, which: Balance)
    ensures var r := SetCommand(d, s, chat, thread, arg, which);
      && (!SetAccepted(d, thread, arg) ==> r == s)
      && (SetAccepted(d, thread, arg) ==>
            && Get(StateOf(d, r, chat), which) == ToCents(d, arg.value).value
            && (forall v :: v != which ==> Get(StateOf(d, r, chat), v) == Get(StateOf(d, s, chat), v))
            && LogOf(r, chat) == LogOf(s, chat))
      && OthersUnchanged(d, s, r, chat)
  {
    if SetAccepted(d, thread, arg) {
      var c := ToCents(d, arg.value).value;
      var s1 := EnsureState(d, s, chat);
      var b := Put(StateOf(d, s, chat), which, c);
      assert SetCommand(d, s, chat, thread, arg, which) == SaveState(s1, chat, b);
      assert OthersUnchanged(d, s1, SaveState(s1, chat, b), chat);
    }
  }

  // ---------------------------------------------------------------------------
  // Amount messages

  function CategoryOf(d: Dialect, thread: int): Option<Category> {
    if d == Js then CategoryOfJs(thread) else CategoryOfPy(thread)
  }

  function HandleAmount(d: Dialect, thread: int, amount: nat, note: string, sign: int, st: Balances): Option<Applied> {
    if d == Js then HandleAmountJs(thread, amount, note, sign, st) else HandleAmountPy(thread, amount, note, sign, st)
  }

  /** The amount part of `fetch` / `handle_message`: nothing without a thread or without an
      amount (a line the script cannot convert raises before anything is read or written);
      otherwise the outcome of reading the line is applied. */
  function AmountMessage(d: Dialect, s: Store, chat: int, thread: Option<int>, text: string): Store {
    if thread.None? then s else ApplyOutcome(d, s, chat, thread.value, ParseMessage(d, text))
  }

  /** A read amount: the state row is read (created if missing), and in a bound thread the
      balance is updated and the entry logged. */
  function ApplyOutcome(d: Dialect, s: Store, chat: int, th: int, p: Outcome): Store {
    match p
    case Ignored => s
    case Raises => s
    case Parsed(amount, note, sign) =>
      var s1 := EnsureState(d, s, chat);
      match HandleAmount(d, th, amount, note, sign, StateOf(d, s, chat))
      case None => s1
      case Some(ap) => Record(d, SaveState(s1, chat, ap.balances), chat, ap.entry)
  }

  /** An amount in a bound thread applies the rule of the thread's category to the chat's
      balances and logs the entry; anything else leaves every chat as it was. */
  lemma {:induction false} ApplyOutcomeSpec(d: Dialect, s: Store, chat: int, th: int, p: Outcome)
    ensures var r := ApplyOutcome(d, s, chat, th, p);
      && OthersUnchanged(d, s, r, chat)
      && (!p.Parsed? || CategoryOf(d, th).None? ==> SameView(d, s, r))
      && (p.Parsed? && CategoryOf(d, th).Some? ==>
            var c := CategoryOf(d, th).value;
            && StateOf(d, r, chat) == Apply(RuleOf(c), p.sign, p.amountAbs, StateOf(d, s, chat))
            && LogOf(r, chat) == Logged(d, LogOf(s, chat), Entry(th, c, p.amountAbs, DirectionOf(RuleOf(c), p.sign), p.note)))
  {
    if p.Parsed? {
      if d == Js {
        HandleAmountJsIsTable(th, p.amountAbs, p.note, p.sign, StateOf(d, s, chat));
      } else {
        HandleAmountPyIsTable(th, p.amountAbs, p.note, p.sign, StateOf(d, s, chat));
      }
    }
  }

  /** An amount message in a bound thread applies the rule of the thread's category to the
      chat's balances and logs the entry; anything else leaves every chat as it was. */
  lemma {:induction false} AmountMessageSpec(d: Dialect, s: Store, chat: int, thread: Option<int>, text: string)
    ensures var r := AmountMessage(d, s, chat, thread, text);
      var p := ParseMessage(d, text);
      && OthersUnchanged(d, s, r, chat)
      && (thread.None? || !p.Parsed? || CategoryOf(d, thread.value).None? ==> SameView(d, s, r))
      && (thread.Some? && p.Parsed? && CategoryOf(d, thread.value).Some? ==>
            var c := CategoryOf(d, thread.value).value;
            && StateOf(d, r, chat) == Apply(RuleOf(c), p.sign, p.amountAbs, StateOf(d, s, chat))
            && LogOf(r, chat) == Logged(d, LogOf(s, chat), Entry(thread.value, c, p.amountAbs, DirectionOf(RuleOf(c), p.sign), p.note)))
  {
    if thread.Some? {
      ApplyOutcomeSpec(d, s, chat, thread.value, ParseMessage(d, text));
    }
  }

  /** A message without a thread, or from a thread no category is bound to, changes nothing. */
  lemma {:induction false} UnboundThreadUntouched(d: Dialect, s: Store, chat: int, thread: Option<int>, text: string)
    requires thread.None? || CategoryOf(d, thread.value).None?
    ensures SameView(d, s, AmountMessage(d, s, chat, thread, text))
  {
    AmountMessageSpec(d, s, chat, thread, text);
  }

  /** The effect of one amount message in a bound thread: exactly one of the two balances
      changes, by exactly the amount, which is positive; the newest log entry records that
      amount, and its direction is "in" exactly when the balance went up. */
  lemma {:induction false} AmountMessageEffect(d: Dialect, s: Store, chat: int, th: int, text: string)
    requires ParseMessage(d, text).Parsed? && CategoryOf(d, th).Some?
    ensures var r := AmountMessage(d, s, chat, Some(th), text);
      var p := ParseMessage(d, text);
      var before := StateOf(d, s, chat);
      var after := StateOf(d, r, chat);
      var w := RuleOf(CategoryOf(d, th).value).target;
      && p.amountAbs > 0
      && (after.total == before.total) != (after.food == before.food)
      && (Get(after, w) - Get(before, w) == p.amountAbs || Get(before, w) - Get(after, w) == p.amountAbs)
      && |LogOf(r, chat)| > 0
      && Newest(d, LogOf(r, chat)).amountCents == p.amountAbs
      && Newest(d, LogOf(r, chat)).note == p.note
      && (Newest(d, LogOf(r, chat)).direction == In <==> Get(after, w) > Get(before, w))
  {
    var p := ParseMessage(d, text);
    var c := CategoryOf(d, th).value;
    AmountMessageSpec(d, s, chat, Some(th), text);
    ApplyCategoryEffect(c, th, p.amountAbs, p.note, p.sign, StateOf(d, s, chat));
    var r := AmountMessage(d, s, chat, Some(th), text);
    assert |LogOf(r, chat)| > 0 && Newest(d, LogOf(r, chat)) == Entry(th, c, p.amountAbs, DirectionOf(RuleOf(c), p.sign), p.note);
  }

  /** `+X` then `-X` (or `-X` then `+X`) in the same thread gives the balances back. */
  lemma {:induction false} AmountMessageInverse(d: Dialect, s: Store, chat: int, th: int, t1: string, t2: string)
    requires ParseMessage(d, t1).Parsed? && ParseMessage(d, t2).Parsed?
    requires ParseMessage(d, t1).amountAbs == ParseMessage(d, t2).amountAbs
    requires ParseMessage(d, t1).sign != ParseMessage(d, t2).sign
    ensures StateOf(d, AmountMessage(d, AmountMessage(d, s, chat, Some(th), t1), chat, Some(th), t2), chat) == StateOf(d, s, chat)
  {
    var s1 := AmountMessage(d, s, chat, Some(th), t1);
    AmountMessageSpec(d, s, chat, Some(th), t1);
    AmountMessageSpec(d, s1, chat, Some(th), t2);
    if CategoryOf(d, th).Some? {
      var rule := RuleOf(CategoryOf(d, th).value);
      SignInversion(rule, ParseMessage(d, t1).sign, ParseMessage(d, t2).sign, ParseMessage(d, t1).amountAbs, StateOf(d, s, chat));
    }
  }

  // ---------------------------------------------------------------------------
  // Dispatch

  predicate StartsWith(t: string, p: string) {
    |p| <= |t| && t[..|p|] == p
  }

  /** The worker's `fetch` on one message. A chat id of 0 is falsy and the update is dropped.
      The text is trimmed first; the two informational commands change nothing; a text that
      starts with `/settotal` or `/setfood` is a set command whatever follows. */
  function FetchJs(s: Store, u: Update): Store {
    if u.chat == 0 then s
    else
      var text := Trim(Js, u.text);
      if text == "/where" || text == "/start" then s
      else if StartsWith(text, "/settotal") then SetCommand(Js, s, u.chat, u.thread, JsArgument(text), Total)
      else if StartsWith(text, "/setfood") then SetCommand(Js, s, u.chat, u.thread, JsArgument(text), Food)
      else AmountMessage(Js, s, u.chat, u.thread, text)
  }

  /** The part of a word before its first `@`. */
  function BeforeAt(w: string): (r: string)
    ensures |r| <= |w| && r == w[..|r|] && '@' !in r
  {
    if |w| == 0 || w[0] == '@' then "" else [w[0]] + BeforeAt(w[1..])
  }

  /** A word without `@` is its own command name. */
  lemma {:induction false} NoAt(w: string)
    requires '@' !in w
    ensures BeforeAt(w) == w
  {
    if |w| > 0 {
      assert '@' !in w[1..] by {
        assert forall i :: 0 <= i < |w[1..]| ==> w[1..][i] == w[i + 1];
      }
      NoAt(w[1..]);
    }
  }

  /** The command of a text in telebot's sense: a text starting with `/` names the command
      spelled by its first word, without the slash and without an `@bot` suffix. */
  function CommandOf(text: string): Option<string> {
    if |text| == 0 || text[0] != '/' then None
    else Some(BeforeAt(text[1..WordRun(Py, text, 0)]))
  }

  /** The script's handlers, in the order they are registered: `where`, `settotal`, `setfood`,
      `start`, then every other text message. */
  function HandlePy(s: Store, u: Update): Store {
    var cmd := CommandOf(u.text);
    if cmd == Some("where") || cmd == Some("start") then s
    else if cmd == Some("settotal") then SetCommand(Py, s, u.chat, u.thread, PyArgument(u.text), Total)
    else if cmd == Some("setfood") then SetCommand(Py, s, u.chat, u.thread, PyArgument(u.text), Food)
    else AmountMessage(Py, s, u.chat, u.thread, u.text)
  }

  /** A message affects only its own chat. */
  lemma {:induction false} FetchJsOtherChats(s: Store, u: Update)
    ensures OthersUnchanged(Js, s, FetchJs(s, u), u.chat)
  {
    var text := Trim(Js, u.text);
    if u.chat == 0 || text == "/where" || text == "/start" {
    } else if StartsWith(text, "/settotal") {
      SetCommandSpec(Js, s, u.chat, u.thread, JsArgument(text), Total);
    } else if StartsWith(text, "/setfood") {
      SetCommandSpec(Js, s, u.chat, u.thread, JsArgument(text), Food);
    } else {
      AmountMessageSpec(Js, s, u.chat, u.thread, text);
    }
  }

  lemma {:induction false} HandlePyOtherChats(s: Store, u: Update)
    ensures OthersUnchanged(Py, s, HandlePy(s, u), u.chat)
  {
    var cmd := CommandOf(u.text);
    if cmd == Some("where") || cmd == Some("start") {
    } else if cmd == Some("settotal") {
      SetCommandSpec(Py, s, u.chat, u.thread, PyArgument(u.text), Total);
    } else if cmd == Some("setfood") {
      SetCommandSpec(Py, s, u.chat, u.thread, PyArgument(u.text), Food);
    } else {
      AmountMessageSpec(Py, s, u.chat, u.thread, u.text);
    }
  }

  /** Nothing posted outside a forum thread changes anything, commands included. */
  lemma {:induction false} FetchJsNoThread(s: Store, u: Update)
    requires u.thread.None?
    ensures SameView(Js, s, FetchJs(s, u))
  {
    var text := Trim(Js, u.text);
    if u.chat == 0 || text == "/where" || text == "/start" {
    } else if StartsWith(text, "/settotal") {
      SetCommandSpec(Js, s, u.chat, u.thread, JsArgument(text), Total);
    } else if StartsWith(text, "/setfood") {
      SetCommandSpec(Js, s, u.chat, u.thread, JsArgument(text), Food);
    } else {
      AmountMessageSpec(Js, s, u.chat, u.thread, text);
    }
  }

  lemma {:induction false} HandlePyNoThread(s: Store, u: Update)
    requires u.thread.None?
    ensures SameView(Py, s, HandlePy(s, u))
  {
    var cmd := CommandOf(u.text);
    if cmd == Some("where") || cmd == Some("start") {
    } else if cmd == Some("settotal") {
      SetCommandSpec(Py, s, u.chat, u.thread, PyArgument(u.text), Total);
    } else if cmd == Some("setfood") {
      SetCommandSpec(Py, s, u.chat, u.thread, PyArgument(u.text), Food);
    } else {
      AmountMessageSpec(Py, s, u.chat, u.thread, u.text);
    }
  }
}
