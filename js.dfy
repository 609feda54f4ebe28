/**
 * The few pieces of JavaScript value semantics that the deck, filter and
 * slider code depends on: optional strings with `===` and truthiness,
 * `x || d`, template-literal conversion, `findIndex`, the truncating `%`,
 * `includes`, `startsWith`, character-class removal, `trim`, UTF-16 length
 * and `String(parseInt(s, 10))`.
 */
module Js {

  datatype Option<T> = None | Some(value: T) {
    function GetOr(default: T): T {
      match this
      case Some(v) => v
      case None => default
    }
  }

  /** A JavaScript value that is either `undefined`, `null` or a string.
      Structural equality of this datatype is JavaScript's `===`. */
  datatype JsString = Undefined | Null | Text(s: string) {

    /** Truthiness: `undefined`, `null` and `""` are falsy. */
    predicate Truthy() {
      Text? && s != ""
    }

    /** The expression `this || fallback`, for a string fallback. */
    function OrElse(fallback: string): (r: string)
      ensures Truthy() ==> r == s
      ensures !Truthy() ==> r == fallback
    {
      if Truthy() then s else fallback
    }

    /** What `${this}` produces inside a template literal. */
    function Template(): (r: string)
      ensures Text? ==> r == s
    {
      match this
      case Undefined => "undefined"
      case Null => "null"
      case Text(t) => t
    }
  }

  /** `Array.prototype.findIndex`: the first index whose element satisfies
      `p`, or -1 when there is none. */
  function FindIndex<T>(s: seq<T>, p: T -> bool): (r: int)
    ensures -1 <= r < |s|
    ensures r == -1 <==> forall j :: 0 <= j < |s| ==> !p(s[j])
    ensures 0 <= r ==> p(s[r]) && forall j :: 0 <= j < r ==> !p(s[j])
    decreases |s|
  {
    if s == [] then -1
    else if p(s[0]) then 0
    else
      var k := FindIndex(s[1..], p);
      if k == -1 then -1 else k + 1
  }

  /** `a % b` on JavaScript numbers, for a positive divisor: the remainder
      of division truncated toward zero, so it takes the sign of `a`. */
  function JsRem(a: int, b: int): (r: int)
    requires b > 0
    ensures a >= 0 ==> r == a % b
    ensures a < 0 ==> r == -((-a) % b) && -b < r <= 0
  {
    if a >= 0 then a % b else -((-a) % b)
  }

  predicate StartsWith(s: string, prefix: string) {
    |prefix| <= |s| && s[..|prefix|] == prefix
  }

  /** `s.includes(sub)`. */
  predicate Contains(s: string, sub: string)
    decreases |s|
  {
    StartsWith(s, sub) || (s != [] && Contains(s[1..], sub))
  }

  /** `s.replace(/[cs]/g, '')`: every character of the class removed. */
  function RemoveChars(s: string, cs: set<char>): (r: string)
    ensures forall i :: 0 <= i < |r| ==> r[i] !in cs
    ensures |r| <= |s|
    ensures (forall i :: 0 <= i < |s| ==> s[i] !in cs) ==> r == s
    decreases |s|
  {
    if s == [] then []
    else if s[0] in cs then RemoveChars(s[1..], cs)
    else [s[0]] + RemoveChars(s[1..], cs)
  }

  /** The removal works character by character: on a concatenation it is
      the removal of each part. */
  lemma {:induction false} RemoveCharsAppend(s: string, t: string, cs: set<char>)
    ensures RemoveChars(s + t, cs) == RemoveChars(s, cs) + RemoveChars(t, cs)
    decreases |s|
  {
    if s == [] {
      assert s + t == t;
    } else {
      assert (s + t)[0] == s[0] && (s + t)[1..] == s[1..] + t;
      RemoveCharsAppend(s[1..], t, cs);
    }
  }

  /** One character is dropped exactly when it is in the class. */
  lemma RemoveCharsSingle(c: char, cs: set<char>)
    ensures RemoveChars([c], cs) == if c in cs then [] else [c]
  {
    assert [c][1..] == [];
  }

  /** `s.replace(/[^cs]/g, '')`: only the characters of the class kept. */
  function KeepChars(s: string, cs: set<char>): (r: string)
    ensures forall i :: 0 <= i < |r| ==> r[i] in cs
    ensures |r| <= |s|
    ensures (forall i :: 0 <= i < |s| ==> s[i] !in cs) ==> r == []
    decreases |s|
  {
    if s == [] then []
    else if s[0] in cs then [s[0]] + KeepChars(s[1..], cs)
    else KeepChars(s[1..], cs)
  }

  /** On a concatenation the kept characters are those of each part. */
  lemma {:induction false} KeepCharsAppend(s: string, t: string, cs: set<char>)
    ensures KeepChars(s + t, cs) == KeepChars(s, cs) + KeepChars(t, cs)
    decreases |s|
  {
    if s == [] {
      assert s + t == t;
    } else {
      assert (s + t)[0] == s[0] && (s + t)[1..] == s[1..] + t;
      KeepCharsAppend(s[1..], t, cs);
    }
  }

  /** One character is kept exactly when it is in the class. */
  lemma KeepCharsSingle(c: char, cs: set<char>)
    ensures KeepChars([c], cs) == if c in cs then [c] else []
  {
    assert [c][1..] == [];
  }

  /** Removing a class from text made only of that class leaves nothing. */
  lemma {:induction false} RemoveCharsAllOf(s: string, cs: set<char>)
    requires forall i :: 0 <= i < |s| ==> s[i] in cs
    ensures RemoveChars(s, cs) == []
    decreases |s|
  {
    if s != [] {
      RemoveCharsAllOf(s[1..], cs);
    }
  }

  /** Keeping a class in text made only of that class keeps all of it. */
  lemma {:induction false} KeepCharsAllOf(s: string, cs: set<char>)
    requires forall i :: 0 <= i < |s| ==> s[i] in cs
    ensures KeepChars(s, cs) == s
    decreases |s|
  {
    if s != [] {
      KeepCharsAllOf(s[1..], cs);
    }
  }

  const AsciiDigits: set<char> := {'0', '1', '2', '3', '4', '5', '6', '7', '8', '9'}
  const DigitChars: string := "0123456789"
  const LowerLetters: string := "abcdefghijklmnopqrstuvwxyz"

  /** The characters that `String.prototype.trim` and `parseInt` skip:
      WhiteSpace and LineTerminator of ECMAScript (section 12.2 and 12.3
      of ECMA-262), which include the Unicode space separators. */
  predicate IsJsWhitespace(c: char) {
    c == '\U{0009}' || c == '\U{000A}' || c == '\U{000B}' || c == '\U{000C}' ||
    c == '\U{000D}' || c == '\U{0020}' || c == '\U{00A0}' || c == '\U{1680}' ||
    ('\U{2000}' <= c <= '\U{200A}') || c == '\U{2028}' || c == '\U{2029}' ||
    c == '\U{202F}' || c == '\U{205F}' || c == '\U{3000}' || c == '\U{FEFF}'
  }

  /** Every character of `t` is whitespace. */
  predicate Blank(t: string) {
    forall k :: 0 <= k < |t| ==> IsJsWhitespace(t[k])
  }

  function TrimStart(s: string): (r: string)
    ensures |r| <= |s| && r == s[|s| - |r|..]
    ensures Blank(s[..|s| - |r|])
    ensures r != [] ==> !IsJsWhitespace(r[0])
    decreases |s|
  {
    if s != [] && IsJsWhitespace(s[0]) then
      var r := TrimStart(s[1..]);
      BlankCons(s, |s| - |r|);
      r
    else s
  }

  lemma BlankCons(s: string, n: nat)
    requires 0 < n <= |s| && IsJsWhitespace(s[0]) && Blank(s[1..][..n - 1])
    ensures Blank(s[..n])
  {
    assert forall k :: 0 < k < n ==> s[..n][k] == s[1..][..n - 1][k - 1];
  }

  function TrimEnd(s: string): (r: string)
    ensures |r| <= |s| && r == s[..|r|]
    ensures Blank(s[|r|..])
    ensures r != [] ==> !IsJsWhitespace(r[|r| - 1])
    decreases |s|
  {
    if s != [] && IsJsWhitespace(s[|s| - 1]) then
      var r := TrimEnd(s[..|s| - 1]);
      BlankSnoc(s, |r|);
      r
    else s
  }

  lemma BlankSnoc(s: string, m: nat)
    requires m < |s| && IsJsWhitespace(s[|s| - 1]) && Blank(s[..|s| - 1][m..])
    ensures Blank(s[m..])
  {
    assert forall k :: 0 <= k < |s| - 1 - m ==> s[m..][k] == s[..|s| - 1][m..][k];
  }

  /** `s.trim()`: `s` with its leading and trailing whitespace removed.
      The text removed before and after is all whitespace, and what is
      left neither starts nor ends with it. */
  function Trim(s: string): (r: string)
    ensures |r| <= |s|
    ensures exists i :: TrimmedAt(s, r, i)
    ensures r != [] ==> !IsJsWhitespace(r[0]) && !IsJsWhitespace(r[|r| - 1])
  {
    var t := TrimStart(s);
    var r := TrimEnd(t);
    TrimSplit(s, t, r);
    assert TrimmedAt(s, r, |s| - |t|);
    r
  }

  /** `r` is `s[i..i + |r|]`, with only whitespace before and after it. */
  predicate TrimmedAt(s: string, r: string, i: int) {
    0 <= i <= |s| - |r| && r == s[i..i + |r|] && Blank(s[..i]) && Blank(s[i + |r|..])
  }

  /** Where the trimmed text sits in `s`: after the whitespace `TrimStart`
      drops and before the whitespace `TrimEnd` drops. */
  lemma TrimSplit(s: string, t: string, r: string)
    requires |t| <= |s| && t == s[|s| - |t|..] && Blank(s[..|s| - |t|])
    requires |r| <= |t| && r == t[..|r|] && Blank(t[|r|..])
    ensures 0 <= |s| - |t| <= |s| - |r|
    ensures r == s[|s| - |t|..|s| - |t| + |r|]
    ensures Blank(s[..|s| - |t|]) && Blank(s[|s| - |t| + |r|..])
  {
    SliceOfSuffix(s, t, |s| - |t|, |r|);
  }

  lemma SliceOfSuffix(s: string, t: string, i: nat, n: nat)
    requires i <= |s| && t == s[i..] && n <= |t|
    ensures s[i..i + n] == t[..n] && s[i + n..] == t[n..]
  {
  }

  /** `s.length`: JavaScript counts UTF-16 code units, so a character
      outside the Basic Multilingual Plane counts twice. */
  function Utf16Length(s: string): (n: nat)
    ensures |s| <= n <= 2 * |s|
    ensures n == 0 <==> s == []
    decreases |s|
  {
    if s == [] then 0
    else (if s[0] as int > 0xFFFF then 2 else 1) + Utf16Length(s[1..])
  }

  /** A character above U+FFFF is a surrogate pair, two code units; any
      other character is one. */
  lemma Utf16LengthSingle(c: char)
    ensures Utf16Length([c]) == if c as int > 0xFFFF then 2 else 1
  {
    assert [c][1..] == [];
  }

  /** The lengths of the parts of a concatenation add up. */
  lemma {:induction false} Utf16LengthAppend(s: string, t: string)
    ensures Utf16Length(s + t) == Utf16Length(s) + Utf16Length(t)
    decreases |s|
  {
    if s == [] {
      assert s + t == t;
    } else {
      assert (s + t)[0] == s[0] && (s + t)[1..] == s[1..] + t;
      Utf16LengthAppend(s[1..], t);
    }
  }

  function DigitValue(c: char): (d: nat)
    requires c in AsciiDigits
    ensures d < 10 && DigitChars[d] == c
  {
    c as int - '0' as int
  }

  /** The value of a string of decimal digits, most significant first. */
  function DigitsValue(ds: string): nat
    requires forall i :: 0 <= i < |ds| ==> ds[i] in AsciiDigits
    decreases |ds|
  {
    if ds == [] then 0
    else DigitsValue(ds[..|ds| - 1]) * 10 + DigitValue(ds[|ds| - 1])
  }

  /** The decimal numeral of `n`, as `Number.prototype.toString` writes it. */
  function NatToString(n: nat): (r: string)
    ensures |r| >= 1
    ensures forall i :: 0 <= i < |r| ==> r[i] in AsciiDigits
    ensures |r| > 1 ==> r[0] != '0'
    decreases n
  {
    if n < 10 then [DigitChars[n]] else NatToString(n / 10) + [DigitChars[n % 10]]
  }

  lemma {:induction false} DigitsValueOfNatToString(n: nat)
    ensures DigitsValue(NatToString(n)) == n
    decreases n
  {
    if n >= 10 {
      var r := NatToString(n);
      DigitsValueOfNatToString(n / 10);
      assert r[..|r| - 1] == NatToString(n / 10);
    }
  }

  /** The longest prefix of `s` made of decimal digits. */
  function DigitPrefix(s: string): (ds: string)
    ensures |ds| <= |s| && ds == s[..|ds|]
    ensures forall i :: 0 <= i < |ds| ==> ds[i] in AsciiDigits
    ensures |ds| < |s| ==> s[|ds|] !in AsciiDigits
    decreases |s|
  {
    if s != [] && s[0] in AsciiDigits then [s[0]] + DigitPrefix(s[1..]) else []
  }

  /** `String(parseInt(s, 10))`: leading whitespace and one sign are
      skipped, then the longest run of digits is read; no digit at all gives
      `NaN`, and a negative zero prints as `0`. */
  function ParseIntText(s: string): string {
    var t := TrimStart(s);
    var negative := t != [] && t[0] == '-';
    var body := if t != [] && (t[0] == '-' || t[0] == '+') then t[1..] else t;
    var ds := DigitPrefix(body);
    if ds == [] then "NaN"
    else
      var v := DigitsValue(ds);
      if negative && v != 0 then "-" + NatToString(v) else NatToString(v)
  }

  /** A numeral that `toString` produced reads back as itself. */
  lemma {:induction false} ParseIntTextOfNumeral(n: nat)
    ensures ParseIntText(NatToString(n)) == NatToString(n)
  {
    var r := NatToString(n);
    DigitNotSpace(r[0]);
    assert TrimStart(r) == r;
    DigitPrefixOfDigits(r);
    DigitsValueOfNatToString(n);
    assert DigitsValue(DigitPrefix(r)) == n;
  }

  lemma {:induction false} DigitPrefixOfDigits(s: string)
    requires forall i :: 0 <= i < |s| ==> s[i] in AsciiDigits
    ensures DigitPrefix(s) == s
    decreases |s|
  {
    if s != [] {
      DigitPrefixOfDigits(s[1..]);
    }
  }

  /** A digit is neither whitespace nor a sign, so `parseInt` reads it. */
  lemma DigitNotSpace(c: char)
    requires c in AsciiDigits
    ensures !IsJsWhitespace(c) && c != '-' && c != '+'
  {
  }

  /** Text that starts with a letter parses to `NaN`. */
  lemma ParseIntTextOfWord(s: string)
    requires s != [] && 'a' <= s[0] <= 'z'
    ensures ParseIntText(s) == "NaN"
  {
    LetterNotSpace(s[0]);
    assert TrimStart(s) == s;
  }

  lemma LetterNotSpace(c: char)
    requires 'a' <= c <= 'z'
    ensures !IsJsWhitespace(c) && c !in AsciiDigits && c != '-' && c != '+'
  {
  }
}
