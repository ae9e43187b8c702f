/** The initials badge of a subscription (components/subscription-avatar.tsx):
    the background colour picked by a string hash, and the one or two letters
    shown on it. A `char` is a Unicode scalar value, which is one UTF-16
    code unit inside the Basic Multilingual Plane. */
module SubscriptionAvatar {
  import opened Js

  // ---- getThemeColor

  const TwoTo31: int := 0x8000_0000
  const TwoTo32: int := 0x1_0000_0000

  /** ECMAScript ToInt32 of an integral number: the value modulo 2^32, read as
      a signed 32-bit integer. */
  function ToInt32(x: int): (r: int)
    ensures -TwoTo31 <= r < TwoTo31
    ensures (x - r) % TwoTo32 == 0
    ensures -TwoTo31 <= x < TwoTo31 ==> r == x
  {
    var m := x % TwoTo32;
    if m >= TwoTo31 then m - TwoTo32 else m
  }

  /** `hash << 5`: the operand is converted to a 32-bit integer, shifted, and
      the result read again as a signed 32-bit integer. */
  function ShiftLeft5(h: int): (r: int)
    ensures -TwoTo31 <= r < TwoTo31
  {
    ToInt32(ToInt32(h) * 32)
  }

  /** One turn of the loop: `charCodeAt(i) + ((hash << 5) - hash)`. The sum and
      the difference are ordinary number arithmetic, not 32-bit. */
  function HashStep(h: int, c: char): int {
    c as int + (ShiftLeft5(h) - h)
  }

  /** The hash after the loop has run over all of `s`, starting from 0. */
  function NameHash(s: string): int {
    if s == [] then 0 else HashStep(NameHash(s[..|s| - 1]), s[|s| - 1])
  }

  /** The hash of `s`, starting from `h` instead of 0. */
  function HashFrom(h: int, s: string): int
    decreases |s|
  {
    if s == [] then h else HashFrom(HashStep(h, s[0]), s[1..])
  }

  /** The loop can be cut anywhere: hashing `a + b` continues from the hash of `a`. */
  lemma {:induction false} NameHashAppend(a: string, b: string)
    ensures NameHash(a + b) == HashFrom(NameHash(a), b)
    decreases |b|
  {
    if b == [] {
      assert a + b == a;
    } else {
      var a' := a + [b[0]];
      assert a' + b[1..] == a + b;
      assert a'[..|a'| - 1] == a;
      assert NameHash(a') == HashStep(NameHash(a), b[0]);
      assert HashFrom(NameHash(a), b) == HashFrom(HashStep(NameHash(a), b[0]), b[1..]);
      NameHashAppend(a', b[1..]);
    }
  }

  /** The hash grows by less than 2^31 + 2^21 a character, so for names shorter
      than 2^21 characters it stays below 2^53 and the floating-point arithmetic
      of the source is exact: integers model it faithfully. */
  lemma {:induction false} NameHashBound(s: string)
    ensures Abs(NameHash(s)) <= |s| * (TwoTo31 + 0x20_0000)
  {
    if s != [] {
      NameHashBound(s[..|s| - 1]);
    }
  }

  function Abs(x: int): nat {
    if x < 0 then -x else x
  }

  const LightPalette: seq<string> :=
    ["#FEF3C7", "#FFEDD5", "#FEF9C3", "#ECFCCB", "#CCFBF1", "#E0E7FF", "#EDE9FE", "#FCE7F3"]
  const DarkPalette: seq<string> :=
    ["#78350F", "#7C2D12", "#713F12", "#365314", "#134E4A", "#1E3A5F", "#312E81", "#4C1D95"]

  function Palette(isDark: bool): (r: seq<string>)
    ensures |r| == 8
  {
    if isDark then DarkPalette else LightPalette
  }

  /** `getThemeColor`: the palette entry at `|hash| % 8`, so always one of the
      eight colours of the scheme; the empty name gets the first. */
  method GetThemeColor(name: string, isDark: bool) returns (color: string)
    ensures color == Palette(isDark)[Abs(NameHash(name)) % 8]
    ensures color in Palette(isDark)
    ensures name == "" ==> color == Palette(isDark)[0]
  {
    var colors := if isDark then DarkPalette else LightPalette;
    var hash := 0;
    var i := 0;
    while i < |name|
      invariant 0 <= i <= |name|
      invariant hash == NameHash(name[..i])
    {
      assert name[..i + 1][..i] == name[..i];
      hash := HashStep(hash, name[i]);
      i := i + 1;
    }
    assert name[..i] == name;
    color := colors[Abs(hash) % |colors|];
  }

  // ---- getInitials

  /** Where the first word of `s` ends: the first whitespace, or the end. */
  function WordEnd(s: string): (r: nat)
    ensures r <= |s|
    ensures forall k :: 0 <= k < r ==> !IsSpace(s[k])
    ensures r < |s| ==> IsSpace(s[r])
  {
    if s == [] || IsSpace(s[0]) then 0 else 1 + WordEnd(s[1..])
  }

  /** Where the whitespace run starting at `s[0]` ends. */
  function SpaceEnd(s: string): (r: nat)
    ensures r <= |s|
    ensures forall k :: 0 <= k < r ==> IsSpace(s[k])
    ensures r < |s| ==> !IsSpace(s[r])
  {
    if s == [] || !IsSpace(s[0]) then 0 else 1 + SpaceEnd(s[1..])
  }

  /** `s.split(/\s+/)`: the pieces between maximal whitespace runs, empty pieces
      included at either end. */
  function SplitOnWhitespace(s: string): (r: seq<string>)
    ensures |r| >= 1
    ensures r[0] == s[..WordEnd(s)]
    ensures |r| == 1 <==> WordEnd(s) == |s|
    decreases |s|
  {
    var i := WordEnd(s);
    if i == |s| then [s]
    else
      var rest := s[i..];
      [s[..i]] + SplitOnWhitespace(rest[SpaceEnd(rest)..])
  }

  /** No piece of the split contains whitespace. */
  lemma {:induction false} SplitPiecesHaveNoSpace(s: string)
    ensures forall n, k :: 0 <= n < |SplitOnWhitespace(s)| && 0 <= k < |SplitOnWhitespace(s)[n]| ==>
      !IsSpace(SplitOnWhitespace(s)[n][k])
    decreases |s|
  {
    var i := WordEnd(s);
    if i < |s| {
      var rest := s[i..];
      var tail := rest[SpaceEnd(rest)..];
      SplitPiecesHaveNoSpace(tail);
      assert SplitOnWhitespace(s) == [s[..i]] + SplitOnWhitespace(tail);
    }
  }

  /** `getInitials`: "?" for a blank name; with two or more words the first
      letters of the first two; otherwise the first two characters; upper-cased. */
  function GetInitials(name: string): (r: string)
    ensures IsBlank(name) ==> r == "?"
    ensures 1 <= |r| <= 2
  {
    InitialsOfTrimmed(Trim(name))
  }

  /** The body of `getInitials` after `const safe = name.trim()`. */
  function InitialsOfTrimmed(safe: string): (r: string)
    ensures safe == [] ==> r == "?"
    ensures 1 <= |r| <= 2
  {
    if safe == [] then "?"
    else
      var words := SplitOnWhitespace(safe);
      if |words| >= 2 && words[0] != [] && words[1] != [] then
        ToUpperCase([words[0][0], words[1][0]])
      else
        ToUpperCase(safe[..if |safe| < 2 then |safe| else 2])
  }

  /** A trimmed name with no inner whitespace is one word: its first two
      characters, upper-cased. */
  lemma OneWordInitials(name: string)
    requires !IsBlank(name)
    requires forall k :: 0 <= k < |Trim(name)| ==> !IsSpace(Trim(name)[k])
    ensures var t := Trim(name);
      GetInitials(name) == ToUpperCase(t[..if |t| < 2 then |t| else 2])
  {
  }

  /** In a trimmed name whose first whitespace is at `i` and whose next word
      starts at `j`, the initials are the upper-cased `t[0]` and `t[j]`. */
  lemma TwoWordInitials(name: string, i: nat, j: nat)
    requires var t := Trim(name);
      && 0 < i < j < |t|
      && (forall k :: 0 <= k < i ==> !IsSpace(t[k]))
      && (forall k :: i <= k < j ==> IsSpace(t[k]))
      && !IsSpace(t[j])
    ensures GetInitials(name) == [UpperChar(Trim(name)[0]), UpperChar(Trim(name)[j])]
  {
    SplitSecondWord(Trim(name), i, j);
    TwoWordsInitials(Trim(name), j);
  }

  lemma TwoWordsInitials(t: string, j: nat)
    requires j < |t|
    requires var words := SplitOnWhitespace(t);
      |words| >= 2 && words[0] != [] && words[1] != [] && words[0][0] == t[0] && words[1][0] == t[j]
    ensures InitialsOfTrimmed(t) == [UpperChar(t[0]), UpperChar(t[j])]
  {
    var pair := [t[0], t[j]];
    var r := ToUpperCase(pair);
    assert InitialsOfTrimmed(t) == r;
    assert |r| == 2 && r[0] == UpperChar(t[0]) && r[1] == UpperChar(t[j]);
  }

  lemma WordEndAt(s: string, i: nat)
    requires i < |s| && IsSpace(s[i])
    requires forall k :: 0 <= k < i ==> !IsSpace(s[k])
    ensures WordEnd(s) == i
  {
  }

  lemma SpaceEndAt(s: string, m: nat)
    requires m < |s| && !IsSpace(s[m])
    requires forall k :: 0 <= k < m ==> IsSpace(s[k])
    ensures SpaceEnd(s) == m
  {
  }

  /** The split of a string whose first whitespace run is `s[i..j]`: the first
      word starts with `s[0]`, the second with `s[j]`. */
  lemma SplitSecondWord(s: string, i: nat, j: nat)
    requires 0 < i < j < |s|
    requires forall k :: 0 <= k < i ==> !IsSpace(s[k])
    requires forall k :: i <= k < j ==> IsSpace(s[k])
    requires !IsSpace(s[j])
    ensures var words := SplitOnWhitespace(s);
      |words| >= 2 && words[0] != [] && words[1] != [] && words[0][0] == s[0] && words[1][0] == s[j]
  {
    WordEndAt(s, i);
    var rest := s[i..];
    assert forall k :: 0 <= k < j - i ==> rest[k] == s[i + k];
    SpaceEndAt(rest, j - i);
    var second := rest[j - i..];
    assert second[0] == s[j];
    assert SplitOnWhitespace(s) == [s[..i]] + SplitOnWhitespace(second);
    assert WordEnd(second) > 0;
  }
}
