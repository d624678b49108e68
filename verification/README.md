# Telegram finance bot: a Dafny model of its ledger core

The bot keeps a small household ledger inside a Telegram forum chat. Each chat has two
balances: the general balance (`total_cents`) and a separate food budget (`food_cents`).
A member posts a line such as `453.20 lunch` in one of the forum threads. The thread decides
which balance moves and in which direction:

- food thread (33): spending from the food budget;
- food top-up thread (247, worker only): a credit to the food budget;
- top-up thread (80): income to the general balance;
- apartment thread (78) and the other expense threads (34, 43): spending from the general balance.

A negative amount turns the direction around. Every accepted amount is logged as an entry.
The commands `/settotal` and `/setfood` overwrite a balance. They are accepted only in the
balance thread (45).

The repository ships the bot twice:

- `src/index.js`, a Cloudflare worker that stores its state in a key-value namespace;
- `main.py`, a telebot script that stores its state in SQLite.

This project models both, side by side. A `Dialect` (`Js` or `Py`) selects the runtime
library a function follows: which characters count as whitespace, what `.` matches in a
regular expression, and which `trim`/`strip` and `replace` are meant.

Modules, in dependency order:

- `Wrappers`: `Option`.
- `Chars`: character classes per dialect, greedy runs, trimming, whitespace and comma replacement.
- `Decimal`: digit strings and natural numbers, with the `parseInt(String(n)) == n` round trip.
- `Amount`: `toCentsSigned` / `to_cents`, from normalisation through the amount pattern to the signed cents.
- `Money`: `money`, the display form with groups of three, and its round trip through `Amount`.
- `LineRegex`: the amount-line pattern `^\s*([+-]?\d[\d\s]*([.,]\d{1,2})?)\s*(.*)$`.
  - It gives the language of the pattern (`Valid`) and the match a backtracking engine reports (`Match`).
  - It proves that `Match` is the lexicographically greatest valid split.
- `Message`: `parseMessage` / `parse_message` on top of `Match`.
  - It covers the script's failure when whitespace other than the space sits inside the amount.
- `AmountLine`: reading a line of the ordinary shape (amount, blanks, note) end to end.
- `ParseExamples`: concrete lines, including those the two variants read differently.
- `Ledger`: the per-thread rule table, and the two branch chains proved equal to it.
- `AuditLog`: the worker's newest-first log capped at 100, and the script's append-only table.
- `Bot`: the message handlers over a store of per-chat balances and logs.
- `Scenarios`: end-to-end runs of the handlers.

## Differences between the two variants

- Whitespace differs: JavaScript `\s` and `trim` on one side; Python `str.isspace` on the other, which `\s`, `strip` and `split()` all use.
- The worker deletes every whitespace character of the amount. The script deletes only the ASCII space, so a tab inside an amount makes `to_cents` raise (`ParseExamples.TabInNumeralPy`).
- The worker replaces only the first comma. The script replaces every comma.
- Python's `$` also matches before a final newline.
- The food budget of a new chat starts at 0 in the worker and at 20000.00 in the script.
- The worker trims the text before it looks for a command, and any text that starts with `/settotal` counts. The script routes on the first word through telebot (`Bot.CommandOf`).
- The command argument differs: the worker takes the second word only (`text.split(/\s+/, 2)`), the script everything after the command. So `/settotal 1 000.00` sets 1.00 in the worker and 1000.00 in the script (`Scenarios.SetTotalArgumentSplit`).
- The worker's log keeps the newest 100 entries, newest first. The script's table keeps every row, oldest first.
- Only the worker binds a food top-up thread.

## Model

| member | source | states |
|---|---|---|
| Chars.SpaceRun | main.py:56 | The greedy `\s*` from an index consumes only whitespace. It stops at the end or at a non-whitespace character. |
| Chars.DigitSpaceRun | src/index.js:52 | The greedy `[\d\s]*` consumes only digits and whitespace. It stops at the end or at a character that is neither. |
| Chars.DotRun | main.py:56 | The greedy `.*` consumes only characters `.` matches. It stops at the end or at a line terminator of the dialect. |
| Chars.WordRun | main.py:180 | A word of `split()` holds no whitespace and ends at the end or at whitespace. |
| Chars.SpaceRunMax | main.py:56 | No run of whitespace from the same index is longer than the greedy one. |
| Chars.DigitSpaceRunMax | src/index.js:52 | No run of digits and whitespace from the same index is longer than the greedy one. |
| Chars.TrimStart | src/index.js:24 | `trimStart`/`lstrip` returns a suffix. What it drops is all whitespace, and the result does not start with whitespace. |
| Chars.TrimEnd | main.py:131 | `trimEnd`/`rstrip` returns a prefix. What it drops is all whitespace, and the result does not end with whitespace. |
| Chars.TrimNoOp | src/index.js:24 | A string that neither starts nor ends with whitespace is its own trim. |
| Chars.TrimTrailing | main.py:131 | Trimming a string with non-blank ends followed by whitespace gives the string back. |
| Chars.TrimStartAt | src/index.js:24 | When the first `k` characters are whitespace and the next is not, `trimStart`/`lstrip` returns exactly the text from index `k` on. |
| Chars.TrimKeepsInner | main.py:67 | Let `k` be the length of the leading whitespace. Every character at an index `i >= k` that has a non-whitespace character after it survives `strip()`/`trim()`, at index `i - k` of the result. |
| Chars.RemoveSpaces | src/index.js:42 | `replace(/\s+/g, "")` leaves no whitespace and never lengthens. |
| Chars.RemoveSpacesAppend | src/index.js:54 | Deleting whitespace distributes over concatenation. |
| Chars.RemoveSpacesKeepsDigits | src/index.js:54 | On digits and whitespace, deleting whitespace leaves exactly the digits, in order. |
| Chars.RemoveBlanks | main.py:130 | `replace(" ", "")` leaves no ASCII space and never lengthens. |
| Chars.RemoveBlanksAppend | main.py:67 | Deleting spaces distributes over concatenation. |
| Chars.RemoveBlanksKeepsDigits | main.py:130 | On digits and spaces, deleting spaces leaves exactly the digits, in order. |
| Chars.RemoveBlanksKeeps | main.py:67 | Every character other than the space survives `replace(" ", "")`. |
| Chars.ReplaceAllCommas | main.py:67 | Every comma becomes a dot, and every other character stays in place. |
| Chars.ReplaceAllCommasKeeps | main.py:67 | Every character other than the comma survives the replacement. |
| Chars.ReplaceFirstCommaNoComma | src/index.js:42 | A string without a comma is unchanged by the replacement. |
| Decimal.NatToDigits | src/index.js:37 | `String(n)` is a non-empty digit string with no leading zero. |
| Decimal.DigitsRoundTrip | src/index.js:48 | `parseInt(String(n), 10) == n` for every natural number. |
| Decimal.LeadingZero | main.py:78 | `int` ignores a leading zero. |
| Decimal.TwoDigitsValue | main.py:78 | A two-digit fraction is worth ten times its first digit plus its second. |
| Amount.PadFraction | main.py:75 | `(b + "00")[:2]` has two characters, all digits when `b` is. |
| Amount.ToCents | src/index.js:41-49 | The conversion succeeds exactly when the normalised string has the shape `^[+-]?\d+(\.\d{1,2})?$`. The result is negative only with a leading minus, positive only without one, and zero exactly when the magnitude is zero. |
| Amount.NormalizedNoFinalNewline | main.py:67-69 | The `$` that Python lets match before a final newline never changes the verdict, because the normalised string cannot end in a newline. |
| Amount.ToCentsNumeral | main.py:61-78 | For every well-formed numeral with a dot or comma separator, both variants return sign × (integer part × 100 + fraction padded right to two digits). |
| Amount.NormalizeNumeral | src/index.js:42 | Both normalisations turn a numeral's comma into its decimal point and change nothing else. |
| Amount.NormalizeNumeralJs | src/index.js:42 | The worker's trim, whitespace removal and first-comma replacement map a numeral to its dotted form. |
| Amount.NormalizeNumeralPy | main.py:67 | The script's strip, space removal and comma replacement map a numeral to its dotted form. |
| Amount.CommaNumeral | src/index.js:42 | Replacing the first comma of a numeral turns its separator into a dot. |
| Amount.CommasOfNumeral | main.py:67 | Replacing every comma of a numeral turns its separator into a dot. |
| Amount.NumeralParts | src/index.js:45-47 | A dotted numeral has the amount shape, and splitting it at the dot gives back its integer part and fraction. |
| Amount.ToCentsDocExample1 | main.py:63 | `"2453.13"` is 245313 cents in both variants. |
| Amount.ToCentsDocExample2 | main.py:64 | `"2453,1"` is 245310 cents in both variants. |
| Amount.ToCentsDocExample3 | main.py:65 | `"2453"` is 245300 cents in both variants. |
| Amount.ToCentsOfDigits | main.py:76-78 | A bare digit string is read as that many whole units. |
| Amount.ToCentsDocExample4 | src/index.js:44-48 | `"-0,5"` is −50 cents: the sign comes from the leading minus even though the integer part is zero. |
| Money.TwoDigits | src/index.js:38 | `padStart(2, "0")` / `:02d` of a number below 100 is two digits worth that number. |
| Money.Money | src/index.js:32-39 | The display form starts with a minus exactly for negative amounts. It ends with a dot and two digits. |
| Money.GroupSpaced | main.py:85 | The thousands grouping has one to three digits first, then groups of a space and three digits. |
| Money.GroupRemoveSpaces | src/index.js:37 | Deleting the worker's whitespace from the grouped digits gives back the digits. |
| Money.GroupRemoveBlanks | main.py:85 | Deleting the spaces from the grouped digits gives back the digits. |
| Money.MoneyGrouping | src/index.js:35-37 | The whole-unit part of the display form is spaced in threes and holds the decimal digits of abs(cents) div 100. |
| Money.NormalizeMoney | src/index.js:42 | Normalising a displayed amount drops the group spaces and nothing else, in both variants. |
| Money.MoneyNormalForm | main.py:67-68 | The normalised display form has the amount shape, its magnitude is abs(cents), and it starts with a minus exactly for negative amounts. |
| Money.MoneyRoundTrip | src/index.js:32-49 | `toCentsSigned(money(c)) == c` and `to_cents(money(c)) == c` for every integer `c`. |
| LineRegex.FracEnd | main.py:56 | The optional fraction the engine settles on is a valid fraction. It is kept only when the rest of the pattern then fits. |
| LineRegex.Match | src/index.js:52 | Any match reported is a valid split of the line. |
| LineRegex.MatchFrom | main.py:56 | Once the leading blanks and the sign are consumed, any match found is a valid split. |
| LineRegex.GreedyTail | main.py:56 | When the tail fits at all, the greedy `\s*` and `(.*)` make it fit. |
| LineRegex.TailGreatest | src/index.js:52 | Every valid tail fits, and none is greater than the greedy one. |
| LineRegex.TailLater | main.py:56 | A tail that fits from one place fits from every later place. |
| LineRegex.LeadForced | src/index.js:52 | In every valid split, the leading `\s*` and the sign are the greedy ones. |
| LineRegex.MatchAfterSign | main.py:56 | The reported match is decided after the forced leading blanks and sign. |
| LineRegex.FracEndGreatest | src/index.js:52 | No valid fraction after which the tail fits ends later than the one the engine keeps. |
| LineRegex.ShorterRun | main.py:56 | A split whose `[\d\s]*` stops early has no fraction, and the greedy run finds a greater match. |
| LineRegex.NoFractionInsideRun | src/index.js:52 | A split stopping inside the `[\d\s]*` run has no fraction. |
| LineRegex.SameRun | main.py:56 | A split with the greedy run is no greater than the reported match. |
| LineRegex.MatchIsGreatest | src/index.js:52 | Whenever the pattern can match, a match is reported, and it is at least as great as every valid split. |
| LineRegex.MatchSpec | main.py:127-129 | A reported match is valid and greatest. When nothing is reported, the pattern has no match at all. |
| Message.ParseMessage | src/index.js:51-61 | A parsed amount is positive and its sign is ±1. |
| Message.GroupOneSplit | main.py:130 | Group 1 is the sign, the body and the fraction, in that order. |
| Message.WellFormedGroupOne | main.py:56 | The sign, the body's digits, the separator and the fraction digits of group 1 form a well-formed numeral. |
| Message.EndsNoSpace | main.py:130 | The sign and the fraction of group 1 hold no whitespace. |
| Message.JsAmountText | src/index.js:54 | Deleting all whitespace of group 1 leaves a well-formed numeral. |
| Message.GroupOneValue | src/index.js:56 | That numeral converts to the line's value, negated exactly for a minus. |
| Message.PyAmountClean | main.py:130-132 | Without a stray whitespace character, stripping the space-free group 1 leaves its sign, digits and fraction. |
| Message.StrayLocate | main.py:130 | A stray character lies in the body, and a digit follows it. |
| Message.StrayKept | main.py:67-69 | A non-space whitespace character before a digit survives the strip and fails the pattern. |
| Message.PyAmountStray | main.py:130-132 | With a stray whitespace character, `to_cents` of the space-free group 1 raises. |
| Message.AmountOfSplit | main.py:130-132 | Group 1 of every valid split converts to its value. In the script it raises instead when group 1 holds a stray whitespace character. |
| Message.ParseMessageSpec | main.py:119-137 | Reading a line ends in one of four ways. Without a match it is ignored. In the script a stray whitespace character raises. A zero amount is ignored. Otherwise the result is the value, the trimmed group 3 and the sign of group 1. |
| Message.OutcomeOfCents | src/index.js:56-60 | A conversion error propagates, zero is ignored, and otherwise the magnitude and the sign are reported apart. |
| Message.JsNeverRaises | src/index.js:51-61 | The worker's `parseMessage` never throws. |
| AmountLine.LineRun | src/index.js:52 | On a line of the ordinary shape, the `[\d\s]*` run swallows the blanks after a bare integer. |
| AmountLine.LineTail | main.py:56 | On such a line, the greedy tail reaches the end of the line. |
| AmountLine.LineFrac | src/index.js:52 | On such a line, the engine keeps the written fraction. |
| AmountLine.MatchOfLine | main.py:127 | The reported match of such a line, position by position. |
| AmountLine.LineValueOfLine | src/index.js:54-56 | The match is valid, and its value is the written amount. |
| AmountLine.BodyDigits | main.py:130 | The blanks the run swallows hold no digit. |
| AmountLine.ParseOfLine | main.py:119-137 | Reading such a line gives the written amount and sign with the trimmed rest as the note. The script raises when whitespace other than the space precedes a digit. |
| ParseExamples.ExtraFractionDigit | src/index.js:52 | `"12.345"` is 12.34 with the note `"5"`. |
| ParseExamples.GroupedThousands | main.py:130 | `"1 234.50 rent"` is 1234.50 with the note `"rent"`, in both variants. |
| ParseExamples.TabInNumeralJs | src/index.js:54 | The worker reads `"1\t2"` as 12.00. |
| ParseExamples.TabInNumeralPy | main.py:130-132 | The script raises on `"1\t2"`. |
| ParseExamples.TabBeforeNote | main.py:56 | `"12\t x"` is 12.00 with the note `"x"`, in both variants. |
| ParseExamples.ZeroIgnored | main.py:134-135 | `"0"` is no entry. |
| ParseExamples.NegativeZeroIgnored | src/index.js:57-58 | `"-0.00"` is no entry. |
| ParseExamples.Lunch | main.py:119-137 | `"453.20 lunch"` is 453.20 with the note `"lunch"`. |
| ParseExamples.Salary | src/index.js:51-61 | `"1000 salary"` is 1000.00 with the note `"salary"`. |
| ParseExamples.Refund | main.py:136 | `"-2000 refund"` is 2000.00, negative, with the note `"refund"`. |
| Ledger.Apply | src/index.js:227-235 | Applying a rule moves only its target balance: up by the amount for a credit, down by it otherwise. |
| Ledger.HandleAmountJsIsTable | src/index.js:222-322 | The worker's chain of thread branches is the rule table behind its thread binding: five categories over five bound threads. |
| Ledger.HandleAmountPyIsTable | main.py:256-322 | The script's chain of thread branches is the same rule table behind its own binding, which lacks the food top-up thread. |
| Ledger.VariantsAgree | main.py:256-322 | The two variants treat every thread alike except the worker's food top-up thread. |
| Ledger.ApplyCategoryEffect | main.py:257-319 | Exactly one balance changes, by exactly the amount. The entry records the amount, the category and the thread. Its direction is "in" exactly when the balance went up. |
| Ledger.OneBalanceMoves | main.py:272 | Food amounts never touch the general balance, and the others never touch the food budget. |
| Ledger.SignInversion | src/index.js:251-259 | `+X` then `−X` (or `−X` then `+X`) under the same rule restores the balances. |
| Ledger.RuleTable | main.py:257-311 | A positive amount is income exactly in the top-up threads, and a negative one inverts it. Food categories, and only they, move the food budget. |
| AuditLog.Take | src/index.js:109 | `slice(0, n)` is the prefix of length min(len, n). |
| AuditLog.AddEntry | src/index.js:104-111 | `unshift` then cut: the new entry is first, the old ones follow in order, and there are at most 100. |
| AuditLog.AppendEntry | main.py:112-117 | An insert adds one row after the old ones. |
| AuditLog.AddEntryTake | src/index.js:108-109 | Inserting into a cut log and cutting again is cutting once. |
| AuditLog.AddAllKeepsNewest | src/index.js:104-111 | After any run of insertions the log is the newest 100 entries of all ever inserted, newest first. |
| AuditLog.AddAllTake | src/index.js:109 | Cutting the tail first does not change the front 100. |
| AuditLog.Retention | src/index.js:109 | After 150 insertions into an empty log, exactly the 100 most recent remain, most recent first. |
| AuditLog.AppendAllKeepsAll | main.py:112-117 | The script's table keeps every row in insertion order. |
| Bot.EnsureState | main.py:88-90 | Reading a chat's state creates its row without changing what any chat sees. |
| Bot.FreshChat | main.py:30-37 | The row created for a new chat holds a general balance of 0 and a food budget of 20000.00 in the script (0 in the worker), and every existing row stays as it was. |
| Bot.SaveState | src/index.js:102 | Saving replaces the chat's balances and leaves its log and every other chat alone. |
| Bot.Record | src/index.js:104-111 | Logging an entry makes it the chat's newest and leaves the balances and other chats alone. |
| Bot.JsArgument | src/index.js:167-168 | `text.split(/\s+/, 2)` has no second element exactly when the text holds no whitespace. The argument holds no whitespace. |
| Bot.JsArgumentParts | src/index.js:167 | The text is a word, whitespace, the argument and a rest that is empty or starts with whitespace. |
| Bot.PyArgument | main.py:180 | The argument is a non-empty suffix of the text that does not start with whitespace. |
| Bot.PyArgumentParts | main.py:180-181 | The text is leading whitespace, one word, whitespace and the argument; without an argument it is blank or a single word. |
| Bot.SetCommandSpec | src/index.js:162-208 | A rejected set command changes nothing: wrong thread, no argument, or a bad amount. An accepted one replaces its own field with the amount and leaves the other field, the log and every other chat alone. |
| Bot.ApplyOutcomeSpec | main.py:245-322 | A parsed amount in a bound thread applies the thread's rule and logs the entry. Anything else changes nothing. |
| Bot.AmountMessageSpec | src/index.js:213-322 | An amount message in a bound thread applies the rule of the thread's category and logs the entry. No thread, no amount or an unbound thread changes nothing. |
| Bot.UnboundThreadUntouched | src/index.js:321-322 | A message without a thread, or from a thread bound to no category, changes nothing. |
| Bot.AmountMessageEffect | main.py:253-319 | One accepted amount moves exactly one balance, by exactly the positive amount. The newest entry records the amount and the note, with direction "in" exactly when the balance rose. |
| Bot.AmountMessageInverse | src/index.js:227-235 | Posting `+X` and then `−X` in the same thread gives the chat's balances back. |
| Bot.BeforeAt | main.py:171 | The command name is the part of the first word before any `@`. The `@` is cut by the telebot library (`extract_command`), not by code in main.py; this line only registers the handler the name is matched against. |
| Bot.FetchJsOtherChats | src/index.js:78-79 | A message only ever changes its own chat. |
| Bot.HandlePyOtherChats | main.py:88-117 | A message only ever changes its own chat. |
| Bot.FetchJsNoThread | src/index.js:213 | Nothing posted outside a forum thread changes anything, commands included. |
| Bot.HandlePyNoThread | main.py:238-239 | Nothing posted outside a forum thread changes anything, commands included. |
| Scenarios.SetTotalArgumentSplit | src/index.js:167-173 | In the balance thread, `/settotal 1 000.00` sets the general balance to 1.00 in the worker and to 1000.00 in the script. |
| Scenarios.PlainTextPy | main.py:236-237 | A text that does not start with `/` reaches the script's amount handler. |
| Scenarios.LunchInFoodThread | main.py:257-276 | In a fresh chat of the script, `453.20 lunch` in the food thread leaves 19546.80 of the food budget and logs an outgoing food entry. |
| Scenarios.SalaryInTopupThread | src/index.js:247-268 | `1000 salary` in the top-up thread credits 1000.00 to the general balance and logs an incoming entry. |
| Scenarios.RefundInApartThread | main.py:299-319 | `-2000 refund` in the apartment thread adds 2000.00 back to the general balance and logs an incoming entry. |

## Left out

- Network and I/O: the HTTP request envelope, the webhook JSON, the replies and balance posts sent through the Bot API (`tg`, `bot.reply_to`, `update_balance_message`), and the worker's `OK` responses. Only the ledger state and the log are modelled.
- The text of the balance message (`buildBalanceText` / `build_balance_text`) and of the `/where` and `/start` replies. The amounts inside them are covered by `Money.Money`.
- Storage engines: the key-value namespace and SQLite are a map from chat to balances and to log. The `balance_message_id` column and `set_balance_message_id` are not modelled.
- The worker's recovery from a state value that is not valid JSON, and the `Number(... ?? 0)` coercions of `getState`. The model assumes the stored state is well formed.
- Timestamps (`nowStr` / `now_str`, `created_at`): the clock is not modelled, and log entries carry no time.
- Concurrency: concurrent webhook calls and telebot's worker threads are not modelled. Every message is handled atomically.
- JavaScript numbers are IEEE doubles. Amounts beyond 2^53 cents, which lose precision in `toCentsSigned` and `money`, are modelled as exact integers. `-0` is modelled as 0; it displays and stores as `0`.
- Python `\d` and `int` accept non-ASCII Unicode decimal digits. Only the ASCII digits are modelled as digits.
- Python's check `None in (BALANCE_THREAD_ID, ...)` compares constants and is always false, so it is not modelled.
- Non-text messages: the worker reads a missing text as `""`; the script's handlers ignore such messages. `Update.text` is always a string.
- Exceptions that the script's handler raises are modelled as leaving the store unchanged (`Raises`). Telebot logs them, and nothing is written before the failing conversion.
- Chars.Trim: its own contract states only that the result neither starts nor ends with whitespace. The suffix/prefix facts are stated on `Chars.TrimStart` and `Chars.TrimEnd`.
- Chars.ReplaceFirstComma: its own contract states only the length. Its effect on numerals is stated by `Amount.CommaNumeral` and `Chars.ReplaceFirstCommaNoComma`.
- Message.ParseMessage: its own contract states only the range of a parsed result. The complete reading is `Message.ParseMessageSpec`.
- Bot.PyArgument: its own contract states only that the argument is a trimmed-start suffix. The decomposition is `Bot.PyArgumentParts`.
