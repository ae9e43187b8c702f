/** The parts of the JavaScript runtime the application relies on: parsed JSON
    values, thrown errors, and the string built-ins (trim, case mapping,
    includes, number-to-string) that its helpers call. */
module Js {

  /** A value as JSON.parse returns it. Numbers are finite (JSON has no NaN or
      Infinity); object key order is not modelled. */
  datatype Json =
    | JNull
    | JBool(b: bool)
    | JNumber(n: real)
    | JString(s: string)
    | JArray(items: seq<Json>)
    | JObject(fields: map<string, Json>)

  datatype Option<T> = None | Some(value: T)

  /** The errors the modelled code throws: the three `new Error(...)` messages of
      the actions and the TypeError the runtime raises on a bad receiver. */
  datatype JsError = InvalidInput | InvalidCurrency | InvalidName | TypeError

  /** How a call ends: it returns a value or it throws. */
  datatype Completion<T> = Normal(value: T) | Throw(error: JsError)

  /** JavaScript truthiness of a parsed JSON value (`!value` is its negation). */
  predicate Truthy(j: Json) {
    match j
    case JNull => false
    case JBool(b) => b
    case JNumber(n) => n != 0.0
    case JString(s) => s != ""
    case _ => true
  }

  /** The WhiteSpace and LineTerminator code points of ECMAScript: the class that
      `\s` matches and that `String.prototype.trim` removes. */
  predicate IsSpace(c: char) {
    c == '\t' || c == '\n' || c == '\U{000B}' || c == '\U{000C}' || c == '\r' || c == ' '
    || c == '\U{00A0}' || c == '\U{1680}' || ('\U{2000}' <= c <= '\U{200A}')
    || c == '\U{2028}' || c == '\U{2029}' || c == '\U{202F}' || c == '\U{205F}'
    || c == '\U{3000}' || c == '\U{FEFF}'
  }

  predicate IsBlank(s: string) {
    forall i :: 0 <= i < |s| ==> IsSpace(s[i])
  }

  /** No whitespace at either end. */
  predicate IsTrimmed(s: string) {
    s == [] || (!IsSpace(s[0]) && !IsSpace(s[|s| - 1]))
  }

  function TrimStart(s: string): (r: string)
    ensures |r| <= |s| && r == s[|s| - |r|..]
    ensures r == [] || !IsSpace(r[0])
    ensures forall i :: 0 <= i < |s| - |r| ==> IsSpace(s[i])
  {
    if s != [] && IsSpace(s[0]) then TrimStart(s[1..]) else s
  }

  function TrimEnd(s: string): (r: string)
    ensures |r| <= |s| && r == s[..|r|]
    ensures r == [] || !IsSpace(r[|r| - 1])
    ensures forall i :: |r| <= i < |s| ==> IsSpace(s[i])
  {
    if s != [] && IsSpace(s[|s| - 1]) then TrimEnd(s[..|s| - 1]) else s
  }

  /** `r` stands at offset `i` of `s` with only white space before and after it. */
  predicate IsInnerPart(s: string, r: string, i: int) {
    && 0 <= i <= |s| - |r|
    && (forall k :: 0 <= k < |r| ==> r[k] == s[i + k])
    && (forall k :: 0 <= k < i ==> IsSpace(s[k]))
    && (forall k :: i + |r| <= k < |s| ==> IsSpace(s[k]))
  }

  /** `String.prototype.trim`: the text between the leading and the trailing
      white space. */
  function Trim(s: string): (r: string)
    ensures IsTrimmed(r) && |r| <= |s|
    ensures IsInnerPart(s, r, |s| - |TrimStart(s)|)
    ensures r == [] <==> IsBlank(s)
    ensures IsTrimmed(s) ==> r == s
    ensures forall c :: c in r ==> c in s
  {
    TrimProperties(s);
    TrimInnerPart(s);
    TrimEnd(TrimStart(s))
  }

  /** Trimming keeps the characters between the two white-space runs. */
  lemma TrimInnerPart(s: string)
    ensures IsInnerPart(s, TrimEnd(TrimStart(s)), |s| - |TrimStart(s)|)
  {
    var t := TrimStart(s);
    InnerOfInner(s, t, TrimEnd(t));
  }

  /** A suffix of `s` after white space, cut before white space, is an inner part. */
  lemma InnerOfInner(s: string, t: string, r: string)
    requires |t| <= |s| && t == s[|s| - |t|..]
    requires forall k :: 0 <= k < |s| - |t| ==> IsSpace(s[k])
    requires |r| <= |t| && r == t[..|r|]
    requires forall k :: |r| <= k < |t| ==> IsSpace(t[k])
    ensures IsInnerPart(s, r, |s| - |t|)
  {
    var i := |s| - |t|;
    forall k | 0 <= k < |r|
      ensures r[k] == s[i + k]
    {
      assert r[k] == t[k];
    }
    forall k | i + |r| <= k < |s|
      ensures IsSpace(s[k])
    {
      assert s[k] == t[k - i];
    }
  }

  lemma TrimProperties(s: string)
    ensures IsTrimmed(TrimEnd(TrimStart(s)))
    ensures TrimEnd(TrimStart(s)) == [] <==> IsBlank(s)
    ensures forall c :: c in TrimEnd(TrimStart(s)) ==> c in s
  {
    var t := TrimStart(s);
    var r := TrimEnd(t);
    forall c | c in r
      ensures c in s
    {
      var i :| 0 <= i < |r| && r[i] == c;
      assert t[i] == c;
      assert s[i + (|s| - |t|)] == c;
    }
    if r != [] {
      assert r[0] == t[0];
    }
  }

  predicate IsUpper(c: char) { 'A' <= c <= 'Z' }
  predicate IsLower(c: char) { 'a' <= c <= 'z' }

  function LowerChar(c: char): char {
    if IsUpper(c) then (c as int + 32) as char else c
  }

  function UpperChar(c: char): char {
    if IsLower(c) then (c as int - 32) as char else c
  }

  /** `String.prototype.toLowerCase`, restricted to the ASCII letters. */
  function ToLowerCase(s: string): (r: string)
    ensures |r| == |s|
    ensures forall i :: 0 <= i < |s| ==> r[i] == LowerChar(s[i])
  {
    seq(|s|, i requires 0 <= i < |s| => LowerChar(s[i]))
  }

  /** `String.prototype.toUpperCase`, restricted to the ASCII letters. */
  function ToUpperCase(s: string): (r: string)
    ensures |r| == |s|
    ensures forall i :: 0 <= i < |s| ==> r[i] == UpperChar(s[i])
  {
    seq(|s|, i requires 0 <= i < |s| => UpperChar(s[i]))
  }

  /** `s.includes(sub)`: `sub` occurs in `s` at some offset. */
  predicate Includes(s: string, sub: string) {
    exists k | 0 <= k <= |s| :: sub <= s[k..]
  }

  predicate IsDigit(c: char) { '0' <= c <= '9' }

  function DigitChar(d: nat): (c: char)
    requires d < 10
    ensures IsDigit(c) && c as int - '0' as int == d
  {
    ('0' as int + d) as char
  }

  /** Decimal value of a string of digits, as `Number` reads it. */
  function DigitsValue(s: string): (n: nat)
    requires forall i :: 0 <= i < |s| ==> IsDigit(s[i])
  {
    if s == [] then 0
    else
      assert IsDigit(s[|s| - 1]);
      DigitsValue(s[..|s| - 1]) * 10 + (s[|s| - 1] as int - '0' as int)
  }

  /** `String(n)` for a natural number: its shortest decimal digits. */
  function NatToString(n: nat): (r: string)
    ensures r != [] && forall i :: 0 <= i < |r| ==> IsDigit(r[i])
    ensures |r| > 1 ==> r[0] != '0'
    ensures DigitsValue(r) == n
  {
    if n < 10 then [DigitChar(n)]
    else
      var r := NatToString(n / 10) + [DigitChar(n % 10)];
      assert r[..|r| - 1] == NatToString(n / 10);
      r
  }

  /** `String(n)` for an integer: a minus sign before the digits of a negative. */
  function IntToString(n: int): string {
    if n < 0 then "-" + NatToString(-n) else NatToString(n)
  }

  /** `s.padStart(2, '0')`. */
  function PadStart2(s: string): (r: string)
    ensures |s| >= 2 ==> r == s
    ensures |s| < 2 ==> |r| == 2 && r[2 - |s|..] == s
  {
    if |s| >= 2 then s else if |s| == 1 then "0" + s else "00"
  }
}
