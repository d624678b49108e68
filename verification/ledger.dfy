/** The per-thread balance rules of both variants.

    A chat keeps two independent balances, the general one (`total_cents`) and the food budget
    (`food_cents`). The forum thread a message is posted in decides which balance an amount
    moves and whether a positive amount is a credit; a negative amount inverts the direction.
    `Apply` is that rule as a table lookup; `HandleAmountJs` and `HandleAmountPy` are the
    branch chains of the two variants, proved equal to the table. */
module Ledger {
  import opened Wrappers

  datatype Balance = Total | Food

  datatype Balances = Balances(total: int, food: int)

  /** Which balance a category moves, and whether a positive amount adds to it. */
  datatype Rule = Rule(target: Balance, positiveIsCredit: bool)

  /** The `category` column of a log entry. */
  datatype Category = FoodSpend | FoodTopup | Topup | Apart | TotalOther

  datatype Direction = In | Out

  /** The `(old, op, amount, new)` figures of the line reporting a change. */
  datatype Delta = Delta(before: int, op: Direction, amount: nat, after: int)

  /** A row of the audit log. The creation time is not modelled. */
  datatype Entry = Entry(threadId: int, category: Category, amountCents: nat, direction: Direction, note: string)

  /** The result of one amount message: the new balances, the log row and the reported change. */
  datatype Applied = Applied(balances: Balances, entry: Entry, delta: Delta)

  // ---------------------------------------------------------------------------
  // Thread identifiers (the same in both variants, except the food top-up thread)

  const BalanceThread: int := 45
  const FoodThread: int := 33
  const ApartThread: int := 78
  const TopupThread: int := 80
  /** The worker only. */
  const FoodTopupThread: int := 247
  const GeneralExpenseThreads: set<int> := {34, 43}

  /** The string stored in the `category` field. */
  function CategoryName(c: Category): string {
    match c
    case FoodSpend => "food"
    case FoodTopup => "food_topup"
    case Topup => "topup"
    case Apart => "apart"
    case TotalOther => "total_other"
  }

  function DirectionName(d: Direction): string {
    match d
    case In => "in"
    case Out => "out"
  }

  /** The rule table. */
  function RuleOf(c: Category): Rule {
    match c
    case FoodSpend => Rule(Food, false)
    case FoodTopup => Rule(Food, true)
    case Topup => Rule(Total, true)
    case Apart => Rule(Total, false)
    case TotalOther => Rule(Total, false)
  }

  function Get(b: Balances, which: Balance): int {
    match which
    case Total => b.total
    case Food => b.food
  }

  function Put(b: Balances, which: Balance, v: int): Balances {
    match which
    case Total => b.(total := v)
    case Food => b.(food := v)
  }

  /** One amount applied under a rule: a credit when the sign agrees with the rule's
      orientation (`sign >= 0` counts as positive). */
  function Apply(rule: Rule, sign: int, amount: nat, b: Balances): (r: Balances)
    ensures Get(r, rule.target) == Get(b, rule.target) + (if Credited(rule, sign) then amount as int else -(amount as int))
    ensures forall w :: w != rule.target ==> Get(r, w) == Get(b, w)
  {
    var prev := Get(b, rule.target);
    Put(b, rule.target, if Credited(rule, sign) then prev + amount else prev - amount)
  }

  predicate Credited(rule: Rule, sign: int) {
    (sign >= 0) == rule.positiveIsCredit
  }

  function DirectionOf(rule: Rule, sign: int): Direction {
    if Credited(rule, sign) then In else Out
  }

  // ---------------------------------------------------------------------------
  // Thread to category

  /** The worker's binding of threads to categories. */
  function CategoryOfJs(thread: int): Option<Category> {
    if thread == FoodThread then Some(FoodSpend)
    else if thread == TopupThread then Some(Topup)
    else if thread == FoodTopupThread then Some(FoodTopup)
    else if thread == ApartThread then Some(Apart)
    else if thread in GeneralExpenseThreads then Some(TotalOther)
    else None
  }

  /** The script's binding: the same without the food top-up thread. */
  function CategoryOfPy(thread: int): Option<Category> {
    if thread == FoodThread then Some(FoodSpend)
    else if thread == TopupThread then Some(Topup)
    else if thread == ApartThread then Some(Apart)
    else if thread in GeneralExpenseThreads then Some(TotalOther)
    else None
  }

  /** The table-driven effect of an amount message in a thread bound to category `c`. */
  function ApplyCategory(c: Category, thread: int, amount: nat, note: string, sign: int, b: Balances): Applied {
    var rule := RuleOf(c);
    var prev := Get(b, rule.target);
    var r := Apply(rule, sign, amount, b);
    var dir := DirectionOf(rule, sign);
    Applied(r, Entry(thread, c, amount, dir, note), Delta(prev, dir, amount, Get(r, rule.target)))
  }

  // ---------------------------------------------------------------------------
  // The branch chains as written

  /** The thread branches of the worker's `fetch`, in their order. */
  function HandleAmountJs(thread: int, amount: nat, note: string, sign: int, st: Balances): Option<Applied> {
    if thread == FoodThread then
      var prev := st.food;
      var next := if sign >= 0 then prev - amount else prev + amount;
      var dir := if sign >= 0 then Out else In;
      Some(Applied(st.(food := next), Entry(thread, FoodSpend, amount, dir, note), Delta(prev, dir, amount, next)))
    else if thread == TopupThread then
      var prev := st.total;
      var next := if sign >= 0 then prev + amount else prev - amount;
      var dir := if sign >= 0 then In else Out;
      Some(Applied(st.(total := next), Entry(thread, Topup, amount, dir, note), Delta(prev, dir, amount, next)))
    else if thread == FoodTopupThread then
      var prev := st.food;
      var next := if sign >= 0 then prev + amount else prev - amount;
      var dir := if sign >= 0 then In else Out;
      Some(Applied(st.(food := next), Entry(thread, FoodTopup, amount, dir, note), Delta(prev, dir, amount, next)))
    else if thread == ApartThread || thread in GeneralExpenseThreads then
      var category := if thread == ApartThread then Apart else TotalOther;
      var prev := st.total;
      var next := if sign >= 0 then prev - amount else prev + amount;
      var dir := if sign >= 0 then Out else In;
      Some(Applied(st.(total := next), Entry(thread, category, amount, dir, note), Delta(prev, dir, amount, next)))
    else None
  }

  /** The thread branches of the script's `handle_message`, in their order. */
  function HandleAmountPy(thread: int, amount: nat, note: string, sign: int, st: Balances): Option<Applied> {
    if thread == FoodThread then
      var prev := st.food;
      var next := if sign >= 0 then prev - amount else prev + amount;
      var dir := if sign >= 0 then Out else In;
      Some(Applied(st.(food := next), Entry(thread, FoodSpend, amount, dir, note), Delta(prev, dir, amount, next)))
    else if thread == TopupThread then
      var prev := st.total;
      var next := if sign >= 0 then prev + amount else prev - amount;
      var dir := if sign >= 0 then In else Out;
      Some(Applied(st.(total := next), Entry(thread, Topup, amount, dir, note), Delta(prev, dir, amount, next)))
    else if thread == ApartThread || thread in GeneralExpenseThreads then
      var category := if thread == ApartThread then Apart else TotalOther;
      var prev := st.total;
      var next := if sign >= 0 then prev - amount else prev + amount;
      var dir := if sign >= 0 then Out else In;
      Some(Applied(st.(total := next), Entry(thread, category, amount, dir, note), Delta(prev, dir, amount, next)))
    else None
  }

  /** The worker's branch chain is the rule table behind its thread binding. */
  lemma {:induction false} HandleAmountJsIsTable(thread: int, amount: nat, note: string, sign: int, st: Balances)
    ensures HandleAmountJs(thread, amount, note, sign, st) ==
      match CategoryOfJs(thread)
      case None => None
      case Some(c) => Some(ApplyCategory(c, thread, amount, note, sign, st))
  {
  }

  /** The script's branch chain is the same rule table behind its own thread binding. */
  lemma {:induction false} HandleAmountPyIsTable(thread: int, amount: nat, note: string, sign: int, st: Balances)
    ensures HandleAmountPy(thread, amount, note, sign, st) ==
      match CategoryOfPy(thread)
      case None => None
      case Some(c) => Some(ApplyCategory(c, thread, amount, note, sign, st))
  {
  }

  /** The two variants agree on every thread except the worker's food top-up thread. */
  lemma {:induction false} VariantsAgree(thread: int, amount: nat, note: string, sign: int, st: Balances)
    requires thread != FoodTopupThread
    ensures HandleAmountJs(thread, amount, note, sign, st) == HandleAmountPy(thread, amount, note, sign, st)
  {
  }

  // ---------------------------------------------------------------------------
  // Invariants of one amount message

  /** Exactly one balance changes, by exactly the amount; the entry logs the amount, and its
      direction is "in" exactly when the balance went up. */
  lemma {:induction false} ApplyCategoryEffect(c: Category, thread: int, amount: nat, note: string, sign: int, b: Balances)
    requires amount > 0
    ensures var a := ApplyCategory(c, thread, amount, note, sign, b);
      var w := RuleOf(c).target;
      && Get(a.balances, w) != Get(b, w)
      && (Get(a.balances, w) - Get(b, w) == amount || Get(b, w) - Get(a.balances, w) == amount)
      && (forall v :: v != w ==> Get(a.balances, v) == Get(b, v))
      && a.entry.amountCents == amount && a.entry.category == c && a.entry.threadId == thread
      && (a.entry.direction == In <==> Get(a.balances, w) > Get(b, w))
      && a.delta == Delta(Get(b, w), a.entry.direction, amount, Get(a.balances, w))
  {
  }

  /** The food balance and the general balance never move together. */
  lemma {:induction false} OneBalanceMoves(c: Category, thread: int, amount: nat, note: string, sign: int, b: Balances)
    ensures var a := ApplyCategory(c, thread, amount, note, sign, b).balances;
      (RuleOf(c).target == Food ==> a.total == b.total) && (RuleOf(c).target == Total ==> a.food == b.food)
  {
  }

  /** `+X` then `-X` in the same thread restores the balances, and so does `-X` then `+X`. */
  lemma {:induction false} SignInversion(rule: Rule, s1: int, s2: int, amount: nat, b: Balances)
    requires (s1 >= 0) != (s2 >= 0)
    ensures Apply(rule, s2, amount, Apply(rule, s1, amount, b)) == b
  {
    var once := Apply(rule, s1, amount, b);
    var twice := Apply(rule, s2, amount, once);
    assert Get(twice, Total) == Get(b, Total) && Get(twice, Food) == Get(b, Food);
  }

  /** What the rule table says for each category and a positive amount, in words: food and
      expenses go out, top-ups come in; a negative amount goes the other way. */
  lemma {:induction false} RuleTable(c: Category, sign: int)
    ensures DirectionOf(RuleOf(c), sign) == In <==> ((c == FoodTopup || c == Topup) == (sign >= 0))
    ensures RuleOf(c).target == Food <==> (c == FoodSpend || c == FoodTopup)
  {
  }
}
