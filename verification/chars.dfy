/** Character classes and the small string operations both variants of the bot rely on.

    The two variants run on different regular-expression and string libraries, whose notion of
    "whitespace" and of what `.` matches differ; `Dialect` selects which one is meant. */
module Chars {

  /** Which runtime's string library a function follows: the Cloudflare worker (JavaScript)
      or the telebot script (Python). */
  datatype Dialect = Js | Py

  predicate IsDigit(c: char) { '0' <= c <= '9' }

  predicate IsSign(c: char) { c == '+' || c == '-' }

  /** JavaScript `\s`, and the characters `String.prototype.trim` removes:
      WhiteSpace plus LineTerminator of the ECMAScript grammar. */
  predicate IsJsSpace(c: char) {
    || ('\t' <= c <= '\r')
    || c == ' ' || c == '\U{00A0}' || c == '\U{1680}'
    || ('\U{2000}' <= c <= '\U{200A}')
    || c == '\U{2028}' || c == '\U{2029}' || c == '\U{202F}' || c == '\U{205F}'
    || c == '\U{3000}' || c == '\U{FEFF}'
  }

  /** Python `str.isspace`, which is also what `\s`, `str.strip` and `str.split()` use on `str`. */
  predicate IsPySpace(c: char) {
    || ('\t' <= c <= '\r')
    || ('\U{001C}' <= c <= '\U{001F}')
    || c == ' ' || c == '\U{0085}' || c == '\U{00A0}' || c == '\U{1680}'
    || ('\U{2000}' <= c <= '\U{200A}')
    || c == '\U{2028}' || c == '\U{2029}' || c == '\U{202F}' || c == '\U{205F}'
    || c == '\U{3000}'
  }

  predicate IsSpace(d: Dialect, c: char) {
    match d
    case Js => IsJsSpace(c)
    case Py => IsPySpace(c)
  }

  /** What `.` matches without the dot-all flag: every character except a line terminator
      (JavaScript knows four of them, Python only `\n`). */
  predicate DotMatches(d: Dialect, c: char) {
    match d
    case Js => c != '\n' && c != '\r' && c != '\U{2028}' && c != '\U{2029}'
    case Py => c != '\n'
  }

  predicate AllDigits(s: string) {
    forall i :: 0 <= i < |s| ==> IsDigit(s[i])
  }

  predicate AllSpace(d: Dialect, s: string) {
    forall i :: 0 <= i < |s| ==> IsSpace(d, s[i])
  }

  predicate AllDigitOrSpace(d: Dialect, s: string) {
    forall i :: 0 <= i < |s| ==> IsDigit(s[i]) || IsSpace(d, s[i])
  }

  predicate AllDot(d: Dialect, s: string) {
    forall i :: 0 <= i < |s| ==> DotMatches(d, s[i])
  }

  predicate NoSpace(d: Dialect, s: string) {
    forall i :: 0 <= i < |s| ==> !IsSpace(d, s[i])
  }

  /** The slice of `t` from `i` is its first character followed by the rest. */
  lemma {:induction false} ConsSlice(t: string, i: nat, n: nat)
    requires i + 1 + n <= |t|
    ensures t[i..i + 1 + n] == [t[i]] + t[i + 1..i + 1 + n]
  {
  }

  /** Number of consecutive whitespace characters of `t` starting at index `i`. */
  function SpaceRun(d: Dialect, t: string, i: nat): (n: nat)
    requires i <= |t|
    ensures i + n <= |t|
    ensures AllSpace(d, t[i..i + n])
    ensures i + n == |t| || !IsSpace(d, t[i + n])
    decreases |t| - i
  {
    if i == |t| || !IsSpace(d, t[i]) then 0
    else
      ConsSlice(t, i, SpaceRun(d, t, i + 1));
      1 + SpaceRun(d, t, i + 1)
  }

  /** Number of consecutive digits or whitespace characters of `t` starting at index `i`
      (what the character class `[\d\s]*` consumes). */
  function DigitSpaceRun(d: Dialect, t: string, i: nat): (n: nat)
    requires i <= |t|
    ensures i + n <= |t|
    ensures AllDigitOrSpace(d, t[i..i + n])
    ensures i + n == |t| || !(IsDigit(t[i + n]) || IsSpace(d, t[i + n]))
    decreases |t| - i
  {
    if i == |t| || !(IsDigit(t[i]) || IsSpace(d, t[i])) then 0
    else
      ConsSlice(t, i, DigitSpaceRun(d, t, i + 1));
      1 + DigitSpaceRun(d, t, i + 1)
  }

  /** Number of consecutive digits of `t` starting at index `i`. */
  function DigitRun(t: string, i: nat): (n: nat)
    requires i <= |t|
    ensures i + n <= |t|
    ensures AllDigits(t[i..i + n])
    ensures i + n == |t| || !IsDigit(t[i + n])
    decreases |t| - i
  {
    if i == |t| || !IsDigit(t[i]) then 0
    else
      ConsSlice(t, i, DigitRun(t, i + 1));
      1 + DigitRun(t, i + 1)
  }

  /** Number of consecutive characters of `t` from index `i` that `.` matches. */
  function DotRun(d: Dialect, t: string, i: nat): (n: nat)
    requires i <= |t|
    ensures i + n <= |t|
    ensures AllDot(d, t[i..i + n])
    ensures i + n == |t| || !DotMatches(d, t[i + n])
    decreases |t| - i
  {
    if i == |t| || !DotMatches(d, t[i]) then 0
    else
      ConsSlice(t, i, DotRun(d, t, i + 1));
      1 + DotRun(d, t, i + 1)
  }

  /** Number of consecutive non-whitespace characters of `t` starting at index `i`. */
  function WordRun(d: Dialect, t: string, i: nat): (n: nat)
    requires i <= |t|
    ensures i + n <= |t|
    ensures NoSpace(d, t[i..i + n])
    ensures i + n == |t| || IsSpace(d, t[i + n])
    decreases |t| - i
  {
    if i == |t| || IsSpace(d, t[i]) then 0
    else
      ConsSlice(t, i, WordRun(d, t, i + 1));
      1 + WordRun(d, t, i + 1)
  }

  /** A greedy run is as long as any run of the same class starting at the same index. */
  lemma {:induction false} SpaceRunMax(d: Dialect, t: string, i: nat, j: nat)
    requires i <= j <= |t| && AllSpace(d, t[i..j])
    ensures j <= i + SpaceRun(d, t, i)
  {
  }

  lemma {:induction false} DigitSpaceRunMax(d: Dialect, t: string, i: nat, j: nat)
    requires i <= j <= |t| && AllDigitOrSpace(d, t[i..j])
    ensures j <= i + DigitSpaceRun(d, t, i)
  {
  }

  lemma {:induction false} DotRunMax(d: Dialect, t: string, i: nat, j: nat)
    requires i <= j <= |t| && AllDot(d, t[i..j])
    ensures j <= i + DotRun(d, t, i)
  {
  }

  /** `trimStart` / `lstrip`. */
  function TrimStart(d: Dialect, s: string): (r: string)
    ensures |r| <= |s| && r == s[|s| - |r|..]
    ensures AllSpace(d, s[..|s| - |r|])
    ensures |r| == 0 || !IsSpace(d, r[0])
  {
    if |s| > 0 && IsSpace(d, s[0]) then
      TrimStartStep(d, s, TrimStart(d, s[1..]));
      TrimStart(d, s[1..])
    else s
  }

  /** Stripping a leading whitespace character, then the rest. */
  lemma {:induction false} TrimStartStep(d: Dialect, s: string, r: string)
    requires |s| > 0 && IsSpace(d, s[0])
    requires |r| <= |s| - 1 && r == s[1..][|s| - 1 - |r|..] && AllSpace(d, s[1..][..|s| - 1 - |r|])
    ensures r == s[|s| - |r|..] && AllSpace(d, s[..|s| - |r|])
  {
    var k := |s| - |r|;
    forall i | 0 <= i < k ensures IsSpace(d, s[..k][i]) {
      if i > 0 {
        assert s[..k][i] == s[1..][..k - 1][i - 1];
      }
    }
  }

  /** `trimEnd` / `rstrip`. */
  function TrimEnd(d: Dialect, s: string): (r: string)
    ensures |r| <= |s| && r == s[..|r|]
    ensures AllSpace(d, s[|r|..])
    ensures |r| == 0 || !IsSpace(d, r[|r| - 1])
  {
    if |s| > 0 && IsSpace(d, s[|s| - 1]) then
      var r := TrimEnd(d, s[..|s| - 1]);
      assert forall i :: |r| <= i < |s| ==> IsSpace(d, s[i]) by {
        forall i | |r| <= i < |s| ensures IsSpace(d, s[i]) {
          if i < |s| - 1 {
            assert s[..|s| - 1][|r|..][i - |r|] == s[i];
          }
        }
      }
      r
    else s
  }

  /** JavaScript `String.prototype.trim` and Python `str.strip()`. */
  function Trim(d: Dialect, s: string): (r: string)
    ensures |r| == 0 || (!IsSpace(d, r[0]) && !IsSpace(d, r[|r| - 1]))
  {
    TrimEnd(d, TrimStart(d, s))
  }

  lemma {:induction false} TrimNoOp(d: Dialect, s: string)
    requires |s| == 0 || (!IsSpace(d, s[0]) && !IsSpace(d, s[|s| - 1]))
    ensures Trim(d, s) == s
  {
  }

  /** JavaScript `s.replace(/\s+/g, "")`: every whitespace character removed. */
  function RemoveSpaces(d: Dialect, s: string): (r: string)
    ensures NoSpace(d, r)
    ensures |r| <= |s|
  {
    if |s| == 0 then ""
    else if IsSpace(d, s[|s| - 1]) then RemoveSpaces(d, s[..|s| - 1])
    else RemoveSpaces(d, s[..|s| - 1]) + [s[|s| - 1]]
  }

  /** Python `s.replace(" ", "")`: only the ASCII space removed. */
  function RemoveBlanks(s: string): (r: string)
    ensures forall i :: 0 <= i < |r| ==> r[i] != ' '
    ensures |r| <= |s|
  {
    if |s| == 0 then ""
    else if s[|s| - 1] == ' ' then RemoveBlanks(s[..|s| - 1])
    else RemoveBlanks(s[..|s| - 1]) + [s[|s| - 1]]
  }

  /** JavaScript `s.replace(",", ".")` with a string pattern: only the FIRST comma. */
  function ReplaceFirstComma(s: string): (r: string)
    ensures |r| == |s|
  {
    if |s| == 0 then ""
    else if s[0] == ',' then "." + s[1..]
    else [s[0]] + ReplaceFirstComma(s[1..])
  }

  /** Python `s.replace(",", ".")`: every comma. */
  function ReplaceAllCommas(s: string): (r: string)
    ensures |r| == |s|
    ensures forall i :: 0 <= i < |s| ==> r[i] == (if s[i] == ',' then '.' else s[i])
  {
    if |s| == 0 then ""
    else [if s[0] == ',' then '.' else s[0]] + ReplaceAllCommas(s[1..])
  }

  // ---------------------------------------------------------------------------
  // Algebra of the removal functions

  lemma {:induction false} RemoveSpacesAppend(d: Dialect, a: string, b: string)
    ensures RemoveSpaces(d, a + b) == RemoveSpaces(d, a) + RemoveSpaces(d, b)
    decreases |b|
  {
    if |b| > 0 {
      assert (a + b)[..|a + b| - 1] == a + b[..|b| - 1];
      RemoveSpacesAppend(d, a, b[..|b| - 1]);
    } else {
      assert a + b == a;
    }
  }

  lemma {:induction false} RemoveSpacesOfNoSpace(d: Dialect, s: string)
    requires NoSpace(d, s)
    ensures RemoveSpaces(d, s) == s
  {
    if |s| > 0 {
      RemoveSpacesOfNoSpace(d, s[..|s| - 1]);
      assert s[..|s| - 1] + [s[|s| - 1]] == s;
    }
  }

  lemma {:induction false} RemoveBlanksAppend(a: string, b: string)
    ensures RemoveBlanks(a + b) == RemoveBlanks(a) + RemoveBlanks(b)
    decreases |b|
  {
    if |b| > 0 {
      assert (a + b)[..|a + b| - 1] == a + b[..|b| - 1];
      RemoveBlanksAppend(a, b[..|b| - 1]);
    } else {
      assert a + b == a;
    }
  }

  lemma {:induction false} RemoveBlanksOfNoBlank(s: string)
    requires forall i :: 0 <= i < |s| ==> s[i] != ' '
    ensures RemoveBlanks(s) == s
  {
    if |s| > 0 {
      var init := s[..|s| - 1];
      RemoveBlanksOfNoBlank(init);
      assert RemoveBlanks(s) == RemoveBlanks(init) + [s[|s| - 1]];
      assert init + [s[|s| - 1]] == s;
    }
  }

  lemma {:induction false} ReplaceFirstCommaNoComma(s: string)
    requires forall i :: 0 <= i < |s| ==> s[i] != ','
    ensures ReplaceFirstComma(s) == s
  {
    if |s| > 0 {
      ReplaceFirstCommaNoComma(s[1..]);
      assert [s[0]] + s[1..] == s;
    }
  }

  /** A run of digits is exactly as long as the digit prefix it starts in. */
  lemma {:induction false} DigitRunExact(t: string, i: nat, n: nat)
    requires i <= n <= |t|
    requires AllDigits(t[i..n])
    requires n == |t| || !IsDigit(t[n])
    ensures DigitRun(t, i) == n - i
    decreases n - i
  {
    if i < n {
      assert t[i..n][0] == t[i];
      assert t[i + 1..n] == t[i..n][1..];
      DigitRunExact(t, i + 1, n);
    }
  }

  lemma {:induction false} WordRunExact(d: Dialect, t: string, i: nat, n: nat)
    requires i <= n <= |t|
    requires NoSpace(d, t[i..n])
    requires n == |t| || IsSpace(d, t[n])
    ensures WordRun(d, t, i) == n - i
    decreases n - i
  {
    if i < n {
      assert t[i..n][0] == t[i];
      assert t[i + 1..n] == t[i..n][1..];
      WordRunExact(d, t, i + 1, n);
    }
  }

  lemma {:induction false} SpaceRunExact(d: Dialect, t: string, i: nat, n: nat)
    requires i <= n <= |t|
    requires AllSpace(d, t[i..n])
    requires n == |t| || !IsSpace(d, t[n])
    ensures SpaceRun(d, t, i) == n - i
    decreases n - i
  {
    if i < n {
      assert t[i..n][0] == t[i];
      assert t[i + 1..n] == t[i..n][1..];
      SpaceRunExact(d, t, i + 1, n);
    }
  }

  lemma {:induction false} DigitSpaceRunExact(d: Dialect, t: string, i: nat, n: nat)
    requires i <= n <= |t|
    requires AllDigitOrSpace(d, t[i..n])
    requires n == |t| || !(IsDigit(t[n]) || IsSpace(d, t[n]))
    ensures DigitSpaceRun(d, t, i) == n - i
    decreases n - i
  {
    if i < n {
      assert t[i..n][0] == t[i];
      assert t[i + 1..n] == t[i..n][1..];
      DigitSpaceRunExact(d, t, i + 1, n);
    }
  }

  lemma {:induction false} DotRunExact(d: Dialect, t: string, i: nat, n: nat)
    requires i <= n <= |t|
    requires AllDot(d, t[i..n])
    requires n == |t| || !DotMatches(d, t[n])
    ensures DotRun(d, t, i) == n - i
    decreases n - i
  {
    if i < n {
      assert t[i..n][0] == t[i];
      assert t[i + 1..n] == t[i..n][1..];
      DotRunExact(d, t, i + 1, n);
    }
  }

  lemma {:induction false} ReplaceAllCommasAppend(a: string, b: string)
    ensures ReplaceAllCommas(a + b) == ReplaceAllCommas(a) + ReplaceAllCommas(b)
  {
    var r := ReplaceAllCommas(a + b);
    var q := ReplaceAllCommas(a) + ReplaceAllCommas(b);
    forall i | 0 <= i < |a + b| ensures r[i] == q[i] {
      if i < |a| {
        assert (a + b)[i] == a[i];
      } else {
        assert (a + b)[i] == b[i - |a|];
      }
    }
  }

  lemma {:induction false} ReplaceAllCommasNoComma(s: string)
    requires forall i :: 0 <= i < |s| ==> s[i] != ','
    ensures ReplaceAllCommas(s) == s
  {
  }

  lemma {:induction false} DigitsNoSpace(d: Dialect, s: string)
    requires AllDigits(s)
    ensures NoSpace(d, s) && RemoveSpaces(d, s) == s
  {
    assert NoSpace(d, s) by {
      forall i | 0 <= i < |s| ensures !IsSpace(d, s[i]) {
        assert IsDigit(s[i]);
      }
    }
    RemoveSpacesOfNoSpace(d, s);
  }

  lemma {:induction false} RemoveSpacesBlank(d: Dialect)
    ensures RemoveSpaces(d, " ") == ""
  {
    assert IsSpace(d, ' ');
    assert " "[..0] == "";
  }

  // ---------------------------------------------------------------------------
  // The digits of a string

  /** The digits of `s` in order, everything else dropped. */
  function DigitsOf(s: string): (r: string)
    ensures AllDigits(r) && |r| <= |s|
  {
    if |s| == 0 then ""
    else if IsDigit(s[|s| - 1]) then DigitsOf(s[..|s| - 1]) + [s[|s| - 1]]
    else DigitsOf(s[..|s| - 1])
  }

  lemma {:induction false} DigitsOfAppend(a: string, b: string)
    ensures DigitsOf(a + b) == DigitsOf(a) + DigitsOf(b)
    decreases |b|
  {
    if |b| == 0 {
      assert a + b == a;
    } else {
      assert (a + b)[..|a + b| - 1] == a + b[..|b| - 1];
      DigitsOfAppend(a, b[..|b| - 1]);
    }
  }

  lemma {:induction false} DigitsOfDigits(s: string)
    requires AllDigits(s)
    ensures DigitsOf(s) == s
  {
    if |s| > 0 {
      DigitsOfDigits(s[..|s| - 1]);
      assert s[..|s| - 1] + [s[|s| - 1]] == s;
    }
  }

  /** A string that starts with a digit has at least one digit. */
  lemma {:induction false} DigitsOfNonEmpty(s: string)
    requires |s| > 0 && IsDigit(s[0])
    ensures |DigitsOf(s)| >= 1
  {
    assert s == [s[0]] + s[1..];
    DigitsOfAppend([s[0]], s[1..]);
    assert DigitsOf([s[0]]) == [s[0]] by {
      assert [s[0]][..0] == [];
    }
  }

  /** Removing the whitespace of digits and whitespace leaves the digits. */
  lemma {:induction false} RemoveSpacesKeepsDigits(d: Dialect, s: string)
    requires AllDigitOrSpace(d, s)
    ensures RemoveSpaces(d, s) == DigitsOf(s)
  {
    if |s| > 0 {
      var init := s[..|s| - 1];
      assert AllDigitOrSpace(d, init) by {
        forall i | 0 <= i < |init| ensures IsDigit(init[i]) || IsSpace(d, init[i]) {
          assert init[i] == s[i];
        }
      }
      RemoveSpacesKeepsDigits(d, s[..|s| - 1]);
      assert IsDigit(s[|s| - 1]) || IsSpace(d, s[|s| - 1]);
    }
  }

  /** Removing the ASCII spaces of digits and ASCII spaces leaves the digits. */
  lemma {:induction false} RemoveBlanksKeepsDigits(s: string)
    requires forall i :: 0 <= i < |s| ==> IsDigit(s[i]) || s[i] == ' '
    ensures RemoveBlanks(s) == DigitsOf(s)
  {
    if |s| > 0 {
      assert forall i :: 0 <= i < |s| - 1 ==> s[..|s| - 1][i] == s[i];
      RemoveBlanksKeepsDigits(s[..|s| - 1]);
      assert IsDigit(s[|s| - 1]) || s[|s| - 1] == ' ';
    }
  }

  lemma {:induction false} DigitsOfNoDigit(s: string)
    requires forall i :: 0 <= i < |s| ==> !IsDigit(s[i])
    ensures DigitsOf(s) == ""
  {
    if |s| > 0 {
      assert forall i :: 0 <= i < |s| - 1 ==> s[..|s| - 1][i] == s[i];
      DigitsOfNoDigit(s[..|s| - 1]);
    }
  }

  // ---------------------------------------------------------------------------
  // Membership survives the removal steps

  lemma {:induction false} RemoveBlanksKeeps(s: string, c: char)
    requires c in s && c != ' '
    ensures c in RemoveBlanks(s)
  {
    if s[|s| - 1] != c {
      assert s == s[..|s| - 1] + [s[|s| - 1]];
      RemoveBlanksKeeps(s[..|s| - 1], c);
    }
  }

  lemma {:induction false} ReplaceAllCommasKeeps(s: string, c: char)
    requires c in s && c != ','
    ensures c in ReplaceAllCommas(s)
  {
    var i :| 0 <= i < |s| && s[i] == c;
    assert ReplaceAllCommas(s)[i] == c;
  }

  /** `trimStart`/`lstrip` drops exactly the leading whitespace, up to the first
      non-space at index `k`. */
  lemma {:induction false} TrimStartAt(d: Dialect, s: string, k: nat)
    requires k < |s| && AllSpace(d, s[..k]) && !IsSpace(d, s[k])
    ensures TrimStart(d, s) == s[k..]
    decreases k
  {
    if k > 0 {
      assert s[..k][0] == s[0];
      var s' := s[1..];
      assert s'[k - 1] == s[k] && s'[k - 1..] == s[k..];
      var w := s'[..k - 1];
      assert AllSpace(d, w) by {
        forall m | 0 <= m < |w| ensures IsSpace(d, w[m]) {
          assert w[m] == s[..k][m + 1];
        }
      }
      TrimStartAt(d, s', k - 1);
    }
  }

  /** Trimming keeps every character that lies past the leading whitespace (whose length
      is `k`) and has a non-space somewhere after it, at its index shifted by `k`. */
  lemma {:induction false} TrimKeepsInner(d: Dialect, s: string, k: nat, i: nat, j: nat)
    requires k <= i < j < |s| && AllSpace(d, s[..k]) && !IsSpace(d, s[k]) && !IsSpace(d, s[j])
    ensures i - k < |Trim(d, s)| && Trim(d, s)[i - k] == s[i]
    ensures s[i] in Trim(d, s)
  {
    var t := s[k..];
    assert |t| == |s| - k && t[i - k] == s[i] && t[j - k] == s[j];
    TrimEndKeeps(d, t, i - k, j - k, s[j]);
    TrimStartAt(d, s, k);
    var u := TrimEnd(d, t);
    assert Trim(d, s) == u;
    assert i - k < |u| && u[i - k] == s[i];
  }

  /** `trimEnd`/`rstrip` keeps every character up to the last non-space. */
  lemma {:induction false} TrimEndKeeps(d: Dialect, t: string, i: nat, j: nat, c: char)
    requires i <= j < |t| && t[j] == c && !IsSpace(d, c)
    ensures j < |TrimEnd(d, t)| && TrimEnd(d, t)[i] == t[i]
  {
    var r := TrimEnd(d, t);
    assert r == t[..|r|];
    assert forall m :: |r| <= m < |t| ==> IsSpace(d, t[m]) by {
      forall m | |r| <= m < |t| ensures IsSpace(d, t[m]) {
        assert t[|r|..][m - |r|] == t[m];
      }
    }
  }

  lemma {:induction false} TrimEndTrailing(d: Dialect, a: string, w: string)
    requires |a| > 0 && !IsSpace(d, a[|a| - 1]) && AllSpace(d, w)
    ensures TrimEnd(d, a + w) == a
    decreases |w|
  {
    if |w| == 0 {
      assert a + w == a;
    } else {
      var w' := w[..|w| - 1];
      assert (a + w)[..|a + w| - 1] == a + w';
      assert IsSpace(d, (a + w)[|a + w| - 1]) by {
        assert (a + w)[|a + w| - 1] == w[|w| - 1];
      }
      assert AllSpace(d, w') by {
        forall i | 0 <= i < |w'| ensures IsSpace(d, w'[i]) {
          assert w'[i] == w[i];
        }
      }
      TrimEndTrailing(d, a, w');
    }
  }

  /** Trimming whitespace off the end of a string with non-space ends. */
  lemma {:induction false} TrimTrailing(d: Dialect, a: string, w: string)
    requires |a| > 0 && !IsSpace(d, a[0]) && !IsSpace(d, a[|a| - 1]) && AllSpace(d, w)
    ensures Trim(d, a + w) == a
  {
    assert TrimStart(d, a + w) == a + w by {
      assert (a + w)[0] == a[0];
    }
    TrimEndTrailing(d, a, w);
  }
}
