/** Value types and string operations shared by every module of the model:
    the optional and error-carrying results the source expresses with
    null/undefined and thrown Errors, and the handful of JavaScript string
    built-ins the source relies on (trim, split on whitespace, case mapping,
    includes, number-to-string and parseInt on decimal digits).

    A string is a sequence of UTF-16 code units, one `char` each. */
module Strings {

  datatype Option<+T> = None | Some(value: T)

  /** A thrown `Error` becomes `Err` carrying the error's message. */
  datatype Result<+T> = Ok(value: T) | Err(message: string)

  /** A check that either passes or throws an `Error` with a message. */
  /** The names every object literal inherits from `Object.prototype`: looking one of them up
      in a plain object used as a table finds the inherited member, not `undefined`. */
  const PrototypeKeys: set<string> := {
    "constructor", "hasOwnProperty", "isPrototypeOf", "propertyIsEnumerable",
    "toLocaleString", "toString", "valueOf", "__defineGetter__", "__defineSetter__",
    "__lookupGetter__", "__lookupSetter__", "__proto__"
  }

  datatype Outcome = Pass | Fail(message: string)

  /** `message || fallback`: an empty error message is replaced by the fallback. */
  function MessageOr(message: string, fallback: string): (r: string)
    ensures r == message || r == fallback
    ensures r == [] ==> fallback == []
  {
    if message == [] then fallback else message
  }

  /** A prefix one longer is the prefix and the next element. */
  lemma TakeOneMore<T>(s: seq<T>, i: nat)
    requires i < |s|
    ensures s[..i + 1] == s[..i] + [s[i]]
  {
  }

  /** The code units JavaScript's `trim()` removes and the regex class `\s` matches:
      the WhiteSpace and LineTerminator code points of ECMAScript. */
  predicate IsSpace(c: char) {
    c == ' ' || c == '\t' || c == '\n' || c == '\r' || c == '\U{000B}' || c == '\U{000C}'
    || c == '\U{00A0}' || c == '\U{FEFF}' || c == '\U{1680}' || ('\U{2000}' <= c <= '\U{200A}')
    || c == '\U{2028}' || c == '\U{2029}' || c == '\U{202F}' || c == '\U{205F}' || c == '\U{3000}'
  }

  /** The code units the regex `.` does not match (no `s` flag). */
  predicate IsLineTerminator(c: char) {
    c == '\n' || c == '\r' || c == '\U{2028}' || c == '\U{2029}'
  }

  predicate NoLineTerminator(s: string) {
    forall i :: 0 <= i < |s| ==> !IsLineTerminator(s[i])
  }

  /** The regex class `\w` (ASCII letters, digits and underscore). */
  predicate IsWordChar(c: char) {
    ('a' <= c <= 'z') || ('A' <= c <= 'Z') || ('0' <= c <= '9') || c == '_'
  }

  predicate IsDigit(c: char) {
    '0' <= c <= '9'
  }

  predicate AllDigits(s: string) {
    forall i :: 0 <= i < |s| ==> IsDigit(s[i])
  }

  predicate NoSpace(s: string) {
    forall i :: 0 <= i < |s| ==> !IsSpace(s[i])
  }

  /** A string JavaScript treats as blank: `s.trim() === ""`. */
  predicate IsBlank(s: string) {
    forall i :: 0 <= i < |s| ==> IsSpace(s[i])
  }

  /** Neither end of the string is whitespace. */
  predicate IsTrimmed(s: string) {
    |s| > 0 ==> !IsSpace(s[0]) && !IsSpace(s[|s| - 1])
  }

  function TrimStart(s: string): (r: string)
    ensures |r| <= |s|
    ensures |r| > 0 ==> !IsSpace(r[0]) && r[|r| - 1] == s[|s| - 1]
    ensures |s| > 0 && !IsSpace(s[|s| - 1]) ==> |r| > 0
  {
    if |s| > 0 && IsSpace(s[0]) then TrimStart(s[1..]) else s
  }

  function TrimEnd(s: string): (r: string)
    ensures |r| <= |s|
    ensures |r| > 0 ==> !IsSpace(r[|r| - 1]) && r[0] == s[0]
  {
    if |s| > 0 && IsSpace(s[|s| - 1]) then TrimEnd(s[..|s| - 1]) else s
  }

  /** `trimStart` removes a blank prefix and nothing else. */
  lemma {:induction false} TrimStartRemovesBlankPrefix(s: string)
    ensures var r := TrimStart(s); r == s[|s| - |r|..] && IsBlank(s[..|s| - |r|])
    decreases |s|
  {
    if |s| > 0 && IsSpace(s[0]) {
      TrimStartRemovesBlankPrefix(s[1..]);
      var r := TrimStart(s);
      var n := |s| - |r|;
      assert r == s[1..][|s| - 1 - |r|..];
      forall i | 0 <= i < n ensures IsSpace(s[..n][i]) {
        if i > 0 {
          assert s[..n][i] == s[1..][..n - 1][i - 1];
        }
      }
    }
  }

  /** `trimEnd` removes a blank suffix and nothing else. */
  lemma {:induction false} TrimEndRemovesBlankSuffix(s: string)
    ensures var r := TrimEnd(s); r == s[..|r|] && IsBlank(s[|r|..])
    decreases |s|
  {
    if |s| > 0 && IsSpace(s[|s| - 1]) {
      var t := s[..|s| - 1];
      TrimEndRemovesBlankSuffix(t);
      var r := TrimEnd(s);
      assert r == t[..|r|];
      forall i | |r| <= i < |s| ensures IsSpace(s[i]) {
        if i < |s| - 1 {
          assert s[i] == t[|r|..][i - |r|];
        }
      }
    }
  }

  /** JavaScript's `String.prototype.trim`. */
  function Trim(s: string): (r: string)
    ensures IsTrimmed(r)
    ensures |r| <= |s|
  {
    TrimEnd(TrimStart(s))
  }

  lemma TrimStartOfBlank(s: string)
    ensures IsBlank(s) ==> TrimStart(s) == []
  {
  }

  /** Trimming only removes blank ends: the result is empty exactly when the input is blank. */
  lemma TrimEmptyIffBlank(s: string)
    ensures Trim(s) == [] <==> IsBlank(s)
  {
    var t := TrimStart(s);
    TrimStartOfBlank(s);
    if Trim(s) == [] {
      TrimEndRemovesBlankSuffix(t);
      TrimStartRemovesBlankPrefix(s);
      assert IsBlank(t[0..]);
      assert t == [];
      forall i | 0 <= i < |s| ensures IsSpace(s[i]) {
        assert s[i] == s[..|s|][i];
      }
    }
  }

  /** A string whose ends are not whitespace is its own trim. */
  lemma TrimOfTrimmed(s: string)
    requires IsTrimmed(s)
    ensures Trim(s) == s
  {
  }

  function LowerChar(c: char): char {
    if 'A' <= c <= 'Z' then (c as int + 32) as char else c
  }

  function UpperChar(c: char): char {
    if 'a' <= c <= 'z' then (c as int - 32) as char else c
  }

  /** `toLowerCase`, on the ASCII letters. */
  function ToLower(s: string): (r: string)
    ensures |r| == |s| && forall i :: 0 <= i < |s| ==> r[i] == LowerChar(s[i])
  {
    if s == [] then [] else [LowerChar(s[0])] + ToLower(s[1..])
  }

  /** `toUpperCase`, on the ASCII letters. */
  function ToUpper(s: string): (r: string)
    ensures |r| == |s| && forall i :: 0 <= i < |s| ==> r[i] == UpperChar(s[i])
  {
    if s == [] then [] else [UpperChar(s[0])] + ToUpper(s[1..])
  }

  /** `s.charAt(0)`: the first code unit, or "" for the empty string. */
  function CharAt0(s: string): (r: string)
    ensures |r| == if s == [] then 0 else 1
    ensures r == s[..|r|]
  {
    if s == [] then [] else [s[0]]
  }

  /** `s.includes(q)`. */
  predicate Contains(s: string, q: string)
    decreases |s|
  {
    q <= s || (|s| > 0 && Contains(s[1..], q))
  }

  lemma {:induction false} ContainsOfPrefix(b: string, a: string, c: string)
    requires b <= a && Contains(b, c)
    ensures Contains(a, c)
    decreases |b|
  {
    if c <= b {
      assert c <= a;
    } else {
      assert |b| > 0 && Contains(b[1..], c);
      assert b[1..] <= a[1..];
      ContainsOfPrefix(b[1..], a[1..], c);
    }
  }

  /** Substring containment is transitive. */
  lemma {:induction false} ContainsTransitive(a: string, b: string, c: string)
    requires Contains(a, b) && Contains(b, c)
    ensures Contains(a, c)
    decreases |a|
  {
    if b <= a {
      ContainsOfPrefix(b, a, c);
    } else {
      ContainsTransitive(a[1..], b, c);
    }
  }

  lemma {:induction false} ContainsEmpty(s: string)
    ensures Contains(s, [])
  {
  }

  /** Only the empty string occurs in the empty string. */
  lemma ContainedInEmpty(q: string)
    requires Contains([], q)
    ensures q == []
  {
  }

  function DigitChar(d: nat): char
    requires d < 10
  {
    ('0' as int + d) as char
  }

  /** The decimal text of a non-negative number, as `String(n)` prints it. */
  function NatToString(n: nat): (r: string)
    ensures |r| > 0 && AllDigits(r)
    ensures |r| > 1 ==> r[0] != '0'
  {
    if n < 10 then [DigitChar(n)] else NatToString(n / 10) + [DigitChar(n % 10)]
  }

  /** The decimal text of an integer: a minus sign before the digits of a negative number. */
  function IntToString(i: int): string {
    if i < 0 then "-" + NatToString(-i) else NatToString(i)
  }

  /** `parseInt(s, 10)` of a string made of decimal digits only. */
  function DigitsValue(s: string): nat
    requires AllDigits(s)
  {
    if s == [] then 0 else DigitsValue(s[..|s| - 1]) * 10 + (s[|s| - 1] as int - '0' as int)
  }

  /** Reading back the printed digits yields the number. */
  lemma {:induction false} DigitsValueOfNatToString(n: nat)
    ensures DigitsValue(NatToString(n)) == n
  {
    if n >= 10 {
      var prefix := NatToString(n / 10);
      var r := prefix + [DigitChar(n % 10)];
      assert r[..|r| - 1] == prefix;
      DigitsValueOfNatToString(n / 10);
    }
  }

  /** Distinct numbers print as distinct strings. */
  lemma NatToStringInjective(a: nat, b: nat)
    requires NatToString(a) == NatToString(b)
    ensures a == b
  {
    DigitsValueOfNatToString(a);
    DigitsValueOfNatToString(b);
  }

  /** Index of the last occurrence of `c` among the first `n` code units, or -1. */
  function LastIndexBefore(s: string, c: char, n: nat): (k: int)
    requires n <= |s|
    ensures -1 <= k < n
    ensures k >= 0 ==> s[k] == c
    ensures forall j :: k < j < n ==> s[j] != c
  {
    if n == 0 then -1
    else if s[n - 1] == c then n - 1
    else LastIndexBefore(s, c, n - 1)
  }

  /** Index of the last occurrence of `c`, or -1 (`lastIndexOf`). */
  function LastIndexOf(s: string, c: char): (k: int)
    ensures -1 <= k < |s|
    ensures k >= 0 ==> s[k] == c
    ensures forall j :: k < j < |s| ==> s[j] != c
  {
    LastIndexBefore(s, c, |s|)
  }

  /** Index of the first whitespace code unit, or |s|. */
  function FirstSpace(s: string): (k: nat)
    ensures k <= |s| && forall i :: 0 <= i < k ==> !IsSpace(s[i])
    ensures k < |s| ==> IsSpace(s[k])
  {
    if s == [] || IsSpace(s[0]) then 0 else 1 + FirstSpace(s[1..])
  }

  /** `s.split(/\s+/)`. */
  function SplitWhitespace(s: string): (parts: seq<string>)
    ensures |parts| >= 1
    decreases |s|
  {
    var k := FirstSpace(s);
    if k == |s| then [s] else [s[..k]] + SplitWhitespace(TrimStart(s[k..]))
  }

  /** Every part is a non-empty run of non-whitespace code units. */
  predicate AreWords(parts: seq<string>) {
    forall j :: 0 <= j < |parts| ==> parts[j] != [] && NoSpace(parts[j])
  }

  lemma AreWordsConcat(w: string, rest: seq<string>)
    requires w != [] && NoSpace(w) && AreWords(rest)
    ensures AreWords([w] + rest)
  {
    var parts := [w] + rest;
    forall j | 0 <= j < |parts| ensures parts[j] != [] && NoSpace(parts[j]) {
      if j > 0 {
        assert parts[j] == rest[j - 1];
      }
    }
  }

  /** On a non-empty string with no whitespace at either end, every part is a non-empty
      word without whitespace, and the first part is where the string starts. */
  lemma {:induction false} SplitTrimmedWords(s: string)
    requires s != [] && IsTrimmed(s)
    ensures AreWords(SplitWhitespace(s))
    ensures SplitWhitespace(s)[0] != [] && SplitWhitespace(s)[0][0] == s[0]
    decreases |s|
  {
    var k := FirstSpace(s);
    if k == |s| {
      assert s[..k] == s;
      assert SplitWhitespace(s) == [s];
    } else {
      assert NoSpace(s[..k]) by {
        forall i | 0 <= i < k ensures !IsSpace(s[..k][i]) {
          assert s[..k][i] == s[i];
        }
      }
      var tail := s[k..];
      var rest := TrimStart(tail);
      assert k > 0;
      assert tail[|tail| - 1] == s[|s| - 1];
      assert |rest| > 0;
      assert rest[|rest| - 1] == tail[|tail| - 1];
      SplitTrimmedWords(rest);
      assert SplitWhitespace(s) == [s[..k]] + SplitWhitespace(rest);
      AreWordsConcat(s[..k], SplitWhitespace(rest));
    }
  }
}
