/** The test-id slug of an emoji category (components/emoji-picker.tsx,
    `toTestIdSegment`): trimmed, lower-cased, every maximal run of characters
    other than `a-z` and `0-9` replaced by one hyphen, and hyphens at either end
    removed. Case mapping is the ASCII one of the Js module. */
module EmojiPicker {
  import opened Js

  /** A character of the class `[a-z0-9]`. */
  predicate IsAlnum(c: char) {
    'a' <= c <= 'z' || '0' <= c <= '9'
  }

  predicate IsSlugChar(c: char) {
    IsAlnum(c) || c == '-'
  }

  /** Two hyphens in a row at `k`. */
  predicate DashPair(s: string, k: int)
    requires 0 <= k < |s| - 1
  {
    s[k] == '-' && s[k + 1] == '-'
  }

  predicate NoDoubleDash(s: string) {
    forall k :: 0 <= k < |s| - 1 ==> !DashPair(s, k)
  }

  /** Only `a-z`, `0-9` and hyphens, never two hyphens in a row. */
  predicate IsSlugShaped(s: string) {
    (forall k :: 0 <= k < |s| ==> IsSlugChar(s[k])) && NoDoubleDash(s)
  }

  /** The text once the leading run of characters outside `[a-z0-9]` is gone. */
  function DropNonAlnum(s: string): (r: string)
    ensures |r| <= |s| && r == s[|s| - |r|..]
    ensures r == [] || IsAlnum(r[0])
    ensures forall k :: 0 <= k < |s| - |r| ==> !IsAlnum(s[k])
  {
    if s == [] || IsAlnum(s[0]) then s else DropNonAlnum(s[1..])
  }

  /** `replace(/[^a-z0-9]+/g, '-')`. */
  function ReplaceRuns(s: string): (r: string)
    ensures s == [] <==> r == []
    ensures s != [] && IsAlnum(s[0]) ==> r[0] == s[0]
    ensures s != [] && !IsAlnum(s[0]) ==> r[0] == '-'
    decreases |s|
  {
    if s == [] then []
    else if IsAlnum(s[0]) then [s[0]] + ReplaceRuns(s[1..])
    else "-" + ReplaceRuns(DropNonAlnum(s))
  }

  /** The replacement leaves only `a-z`, `0-9` and hyphens, never two hyphens in
      a row. */
  lemma {:induction false} ReplaceRunsShape(s: string)
    ensures IsSlugShaped(ReplaceRuns(s))
    decreases |s|
  {
    if s != [] {
      if IsAlnum(s[0]) {
        ReplaceRunsShape(s[1..]);
        ConsKeepsShape(s[0], ReplaceRuns(s[1..]));
      } else {
        ReplaceRunsShape(DropNonAlnum(s));
        ConsKeepsShape('-', ReplaceRuns(DropNonAlnum(s)));
      }
    }
  }

  /** A slug character before a slug-shaped text keeps the shape, unless it is a
      hyphen before a hyphen. */
  lemma ConsKeepsShape(c: char, s: string)
    requires IsSlugChar(c) && IsSlugShaped(s)
    requires c == '-' ==> s == [] || s[0] != '-'
    ensures IsSlugShaped([c] + s)
  {
    var t := [c] + s;
    forall k | 0 <= k < |t|
      ensures IsSlugChar(t[k])
    {
      if k > 0 {
        assert t[k] == s[k - 1];
      }
    }
    forall k | 0 <= k < |t| - 1
      ensures !DashPair(t, k)
    {
      if k > 0 {
        assert t[k] == s[k - 1] && t[k + 1] == s[k];
        assert !DashPair(s, k - 1);
      }
    }
  }

  /** Dropping the first character keeps the slug shape. */
  lemma DropFirstKeepsShape(s: string)
    requires s != []
    ensures IsSlugShaped(s) ==> IsSlugShaped(s[1..])
  {
    if IsSlugShaped(s) {
      forall k | 0 <= k < |s| - 1
        ensures IsSlugChar(s[1..][k])
      {
        assert s[1..][k] == s[k + 1];
      }
      forall k | 0 <= k < |s| - 2
        ensures !DashPair(s[1..], k)
      {
        assert !DashPair(s, k + 1);
      }
    }
  }

  /** Dropping the last character keeps the slug shape. */
  lemma DropLastKeepsShape(s: string)
    requires s != []
    ensures IsSlugShaped(s) ==> IsSlugShaped(s[..|s| - 1])
  {
    if IsSlugShaped(s) {
      var t := s[..|s| - 1];
      forall k | 0 <= k < |t|
        ensures IsSlugChar(t[k])
      {
        assert t[k] == s[k];
      }
      forall k | 0 <= k < |t| - 1
        ensures !DashPair(t, k)
      {
        assert !DashPair(s, k);
      }
    }
  }

  /** `replace(/^-+/, '')`. */
  function StripLeadingDashes(s: string): (r: string)
    ensures |r| <= |s| && r == s[|s| - |r|..]
    ensures forall k :: 0 <= k < |s| - |r| ==> s[k] == '-'
    ensures r == [] || r[0] != '-'
    ensures IsSlugShaped(s) ==> IsSlugShaped(r)
  {
    if s != [] && s[0] == '-' then
      DropFirstKeepsShape(s);
      var r := StripLeadingDashes(s[1..]);
      LeadingRunGrows(s, r);
      r
    else s
  }

  /** A hyphen before a stripped run of hyphens makes a longer run. */
  lemma LeadingRunGrows(s: string, r: string)
    requires s != [] && s[0] == '-' && |r| <= |s| - 1
    requires forall k :: 0 <= k < |s| - 1 - |r| ==> s[1..][k] == '-'
    ensures forall k :: 0 <= k < |s| - |r| ==> s[k] == '-'
  {
    forall k | 0 < k < |s| - |r|
      ensures s[k] == '-'
    {
      assert s[k] == s[1..][k - 1];
    }
  }

  /** `replace(/-+$/, '')`. */
  function StripTrailingDashes(s: string): (r: string)
    ensures |r| <= |s| && r == s[..|r|]
    ensures forall k :: |r| <= k < |s| ==> s[k] == '-'
    ensures r == [] || r[|r| - 1] != '-'
    ensures IsSlugShaped(s) ==> IsSlugShaped(r)
  {
    if s != [] && s[|s| - 1] == '-' then
      DropLastKeepsShape(s);
      var r := StripTrailingDashes(s[..|s| - 1]);
      TrailingRunGrows(s, s[..|s| - 1], r);
      r
    else s
  }

  /** A stripped run of hyphens before a final hyphen makes a longer run. */
  lemma TrailingRunGrows(s: string, t: string, r: string)
    requires s != [] && s[|s| - 1] == '-' && t == s[..|s| - 1] && |r| <= |t|
    requires forall k :: |r| <= k < |t| ==> t[k] == '-'
    ensures forall k :: |r| <= k < |s| ==> s[k] == '-'
  {
    forall k | |r| <= k < |t|
      ensures s[k] == '-'
    {
      assert s[k] == t[k];
    }
  }

  /** `replace(/^-+|-+$/g, '')`: both ends at once. Only the ends change, so a
      slug-shaped text stays slug-shaped, and one without hyphens at its ends is
      left as it is. */
  function StripDashes(s: string): (r: string)
    ensures r == [] || (r[0] != '-' && r[|r| - 1] != '-')
    ensures IsSlugShaped(s) ==> IsSlugShaped(r)
    ensures s == [] || (s[0] != '-' && s[|s| - 1] != '-') ==> r == s
  {
    StripTrailingDashes(StripLeadingDashes(s))
  }

  /** The two `replace` steps: only `a-z`, `0-9` and single hyphens between them. */
  function Slugify(text: string): (r: string)
    ensures IsSlugShaped(r)
    ensures r == [] || (r[0] != '-' && r[|r| - 1] != '-')
  {
    ReplaceRunsShape(text);
    StripDashes(ReplaceRuns(text))
  }

  /** `toTestIdSegment`: trim, lower-case, then the two `replace` steps. */
  function ToTestIdSegment(value: string): (r: string)
    ensures forall k :: 0 <= k < |r| ==> IsSlugChar(r[k])
    ensures r == [] || (r[0] != '-' && r[|r| - 1] != '-')
    ensures NoDoubleDash(r)
  {
    Slugify(ToLowerCase(Trim(value)))
  }

  // ---- Where the hyphens go

  /** A text with no character of `[a-z0-9]`. */
  predicate NoAlnum(s: string) {
    forall k :: 0 <= k < |s| ==> !IsAlnum(s[k])
  }

  /** Skipping a leading run stops inside a text that ends in a letter or digit,
      so whatever follows that text is untouched, and what is left still ends in
      that letter or digit. */
  lemma {:induction false} DropNonAlnumAppend(a: string, c: string)
    requires a != [] && IsAlnum(a[|a| - 1])
    ensures DropNonAlnum(a + c) == DropNonAlnum(a) + c
    ensures DropNonAlnum(a) != [] && DropNonAlnum(a)[|DropNonAlnum(a)| - 1] == a[|a| - 1]
  {
    if !IsAlnum(a[0]) {
      assert (a + c)[1..] == a[1..] + c;
      DropNonAlnumAppend(a[1..], c);
    }
  }

  /** A run without letters or digits before a text starting with one is
      skipped whole. */
  lemma {:induction false} DropNonAlnumRun(sep: string, b: string)
    requires NoAlnum(sep)
    requires b == [] || IsAlnum(b[0])
    ensures DropNonAlnum(sep + b) == b
  {
    if sep == [] {
      assert sep + b == b;
    } else {
      assert (sep + b)[0] == sep[0];
      assert (sep + b)[1..] == sep[1..] + b;
      DropNonAlnumRun(sep[1..], b);
    }
  }

  /** One step of the replacement at a letter or digit. */
  lemma ReplaceRunsAtAlnum(c: char, rest: string)
    requires IsAlnum(c)
    ensures ReplaceRuns([c] + rest) == [c] + ReplaceRuns(rest)
  {
    assert ([c] + rest)[1..] == rest;
  }

  /** One step of the replacement at a run of other characters. */
  lemma ReplaceRunsAtRun(s: string)
    requires s != [] && !IsAlnum(s[0])
    ensures ReplaceRuns(s) == "-" + ReplaceRuns(DropNonAlnum(s))
  {
  }

  /** `replace(/[^a-z0-9]+/g, '-')` puts exactly one hyphen where a run of other
      characters separates two parts. */
  lemma {:induction false} ReplaceRunsSeparator(a: string, sep: string, b: string)
    requires a != [] && IsAlnum(a[|a| - 1])
    requires sep != [] && NoAlnum(sep)
    requires b == [] || IsAlnum(b[0])
    ensures ReplaceRuns(a + (sep + b)) == ReplaceRuns(a) + ("-" + ReplaceRuns(b))
    decreases |a|, 1
  {
    if IsAlnum(a[0]) {
      SeparatorAfterAlnum(a, sep, b);
    } else {
      SeparatorAfterRun(a, sep, b);
    }
  }

  /** The separator case with nothing before the run. */
  lemma SeparatorAlone(sep: string, b: string)
    requires sep != [] && NoAlnum(sep)
    requires b == [] || IsAlnum(b[0])
    ensures ReplaceRuns(sep + b) == "-" + ReplaceRuns(b)
  {
    assert (sep + b)[0] == sep[0];
    ReplaceRunsAtRun(sep + b);
    DropNonAlnumRun(sep, b);
  }

  /** The separator case for a first part that starts with a letter or digit. */
  lemma {:induction false} SeparatorAfterAlnum(a: string, sep: string, b: string)
    requires a != [] && IsAlnum(a[|a| - 1]) && IsAlnum(a[0])
    requires sep != [] && NoAlnum(sep)
    requires b == [] || IsAlnum(b[0])
    ensures ReplaceRuns(a + (sep + b)) == ReplaceRuns(a) + ("-" + ReplaceRuns(b))
    decreases |a|, 0
  {
    if |a| == 1 {
      assert a == [a[0]];
      SeparatorAfterChar(a[0], sep, b);
    } else {
      var tail := a[1..];
      Regroup(a, sep + b);
      ReplaceRunsAtAlnum(a[0], tail + (sep + b));
      ReplaceRunsAtAlnum(a[0], tail);
      ReplaceRunsSeparator(tail, sep, b);
      Associative([a[0]], ReplaceRuns(tail), "-" + ReplaceRuns(b));
    }
  }

  /** The separator case for a first part of one letter or digit. */
  lemma SeparatorAfterChar(c: char, sep: string, b: string)
    requires IsAlnum(c)
    requires sep != [] && NoAlnum(sep)
    requires b == [] || IsAlnum(b[0])
    ensures ReplaceRuns([c] + (sep + b)) == ReplaceRuns([c]) + ("-" + ReplaceRuns(b))
  {
    ReplaceRunsAtAlnum(c, sep + b);
    ReplaceRunsAtAlnum(c, []);
    SeparatorAlone(sep, b);
    assert [c] + [] == [c];
  }

  lemma Associative(x: string, y: string, z: string)
    ensures x + (y + z) == (x + y) + z
  {
  }

  /** `a + rest` is the first character of `a` before the rest of both. */
  lemma Regroup(a: string, rest: string)
    requires a != []
    ensures a == [a[0]] + a[1..] && a + rest == [a[0]] + (a[1..] + rest)
  {
  }

  /** The separator case for a first part that starts with a run of other
      characters: that run becomes a hyphen on both sides. */
  lemma {:induction false} SeparatorAfterRun(a: string, sep: string, b: string)
    requires a != [] && IsAlnum(a[|a| - 1]) && !IsAlnum(a[0])
    requires sep != [] && NoAlnum(sep)
    requires b == [] || IsAlnum(b[0])
    ensures ReplaceRuns(a + (sep + b)) == ReplaceRuns(a) + ("-" + ReplaceRuns(b))
    decreases |a|, 0
  {
    var rest := sep + b;
    var d := DropNonAlnum(a);
    assert (a + rest)[0] == a[0];
    DropNonAlnumAppend(a, rest);
    ReplaceRunsAtRun(a + rest);
    ReplaceRunsAtRun(a);
    ReplaceRunsSeparator(d, sep, b);
    Associative("-", ReplaceRuns(d), "-" + ReplaceRuns(b));
  }

  /** A non-empty slug-shaped text with no hyphen at either end: a slug word. */
  predicate IsSlugWord(w: string) {
    w != [] && IsSlugShaped(w) && w[0] != '-' && w[|w| - 1] != '-'
  }

  /** Two slug words separated by any run of characters outside `[a-z0-9]` slug
      to the two words joined by one hyphen. */
  lemma SlugifySeparatesWords(w1: string, sep: string, w2: string)
    requires IsSlugWord(w1) && IsSlugWord(w2)
    requires sep != [] && NoAlnum(sep)
    ensures Slugify(w1 + sep + w2) == w1 + "-" + w2
  {
    assert IsSlugChar(w1[|w1| - 1]) && IsSlugChar(w2[0]);
    Associative(w1, sep, w2);
    ReplaceRunsSeparator(w1, sep, w2);
    ReplaceRunsOfSlug(w1);
    ReplaceRunsOfSlug(w2);
    Associative(w1, "-", w2);
    JoinedWordsUnstripped(w1, w2);
  }

  /** Two slug words joined by a hyphen have no hyphen at either end. */
  lemma JoinedWordsUnstripped(w1: string, w2: string)
    requires IsSlugWord(w1) && IsSlugWord(w2)
    ensures StripDashes(w1 + "-" + w2) == w1 + "-" + w2
  {
    var r := w1 + "-" + w2;
    assert r[0] == w1[0] && r[|r| - 1] == w2[|w2| - 1];
  }

  /** "my list" gives "my-list": two slug words around a space. */
  lemma TestIdOfTwoWords(w1: string, w2: string)
    requires IsSlugWord(w1) && IsSlugWord(w2)
    ensures ToTestIdSegment(w1 + " " + w2) == w1 + "-" + w2
  {
    var t := w1 + " " + w2;
    LowerTrimOfWords(w1, w2);
    SpaceIsSeparator();
    SlugifySeparatesWords(w1, " ", w2);
    assert ToTestIdSegment(t) == Slugify(ToLowerCase(Trim(t)));
  }

  lemma SpaceIsSeparator()
    ensures " " != [] && NoAlnum(" ")
  {
    assert " "[0] == ' ';
  }

  /** Two slug words around a space are trimmed and lower case already. */
  lemma LowerTrimOfWords(w1: string, w2: string)
    requires IsSlugWord(w1) && IsSlugWord(w2)
    ensures ToLowerCase(Trim(w1 + " " + w2)) == w1 + " " + w2
  {
    var t := w1 + " " + w2;
    assert IsSlugChar(w1[0]) && IsSlugChar(w2[|w2| - 1]);
    assert t[0] == w1[0] && t[|t| - 1] == w2[|w2| - 1];
    assert IsTrimmed(t);
    forall k | 0 <= k < |t|
      ensures IsSlugChar(t[k]) || t[k] == ' '
    {
      if k < |w1| {
        assert t[k] == w1[k];
      } else if k > |w1| {
        assert t[k] == w2[k - |w1| - 1];
      }
    }
    LowerOfSlugText(t);
  }

  /** Slug characters and spaces have no upper case. */
  lemma LowerOfSlugText(t: string)
    requires forall k :: 0 <= k < |t| ==> IsSlugChar(t[k]) || t[k] == ' '
    ensures ToLowerCase(t) == t
  {
    forall k | 0 <= k < |t|
      ensures ToLowerCase(t)[k] == t[k]
    {
      assert !IsUpper(t[k]);
    }
  }

  // ---- The characters kept

  /** The characters of `s` in `[a-z0-9]`, in order. */
  function AlnumOnly(s: string): (r: string)
    ensures forall k :: 0 <= k < |r| ==> IsAlnum(r[k])
  {
    if s == [] then []
    else (if IsAlnum(s[0]) then [s[0]] else []) + AlnumOnly(s[1..])
  }

  lemma {:induction false} AlnumOnlyAppend(a: string, b: string)
    ensures AlnumOnly(a + b) == AlnumOnly(a) + AlnumOnly(b)
  {
    if a == [] {
      assert a + b == b;
    } else {
      assert (a + b)[0] == a[0];
      assert (a + b)[1..] == a[1..] + b;
      AlnumOnlyAppend(a[1..], b);
    }
  }

  lemma {:induction false} DropNonAlnumKeeps(s: string)
    ensures AlnumOnly(DropNonAlnum(s)) == AlnumOnly(s)
  {
    if s != [] && !IsAlnum(s[0]) {
      DropNonAlnumKeeps(s[1..]);
    }
  }

  /** Replacing runs changes only characters outside `[a-z0-9]`. */
  lemma {:induction false} ReplaceRunsKeeps(s: string)
    ensures AlnumOnly(ReplaceRuns(s)) == AlnumOnly(s)
    decreases |s|
  {
    if s != [] {
      if IsAlnum(s[0]) {
        ReplaceRunsKeeps(s[1..]);
        assert ([s[0]] + ReplaceRuns(s[1..]))[1..] == ReplaceRuns(s[1..]);
      } else {
        var d := DropNonAlnum(s);
        ReplaceRunsKeeps(d);
        DropNonAlnumKeeps(s);
        assert ("-" + ReplaceRuns(d))[1..] == ReplaceRuns(d);
      }
    }
  }

  lemma {:induction false} StripLeadingKeeps(s: string)
    ensures AlnumOnly(StripLeadingDashes(s)) == AlnumOnly(s)
  {
    if s != [] && s[0] == '-' {
      StripLeadingKeeps(s[1..]);
    }
  }

  lemma {:induction false} StripTrailingKeeps(s: string)
    ensures AlnumOnly(StripTrailingDashes(s)) == AlnumOnly(s)
  {
    if s != [] && s[|s| - 1] == '-' {
      var init := s[..|s| - 1];
      StripTrailingKeeps(init);
      assert s == init + ['-'];
      AlnumOnlyAppend(init, ['-']);
      assert AlnumOnly(['-']) == [];
    }
  }

  /** The slug keeps every letter and digit of the lower-cased trimmed name, in
      order, and nothing else but hyphens. */
  lemma SlugKeepsLettersAndDigits(value: string)
    ensures AlnumOnly(ToTestIdSegment(value)) == AlnumOnly(ToLowerCase(Trim(value)))
  {
    var replaced := ReplaceRuns(ToLowerCase(Trim(value)));
    ReplaceRunsKeeps(ToLowerCase(Trim(value)));
    StripLeadingKeeps(replaced);
    StripTrailingKeeps(StripLeadingDashes(replaced));
  }

  // ---- Idempotence

  /** In a slug-shaped text a hyphen is followed by a letter or digit, so the
      run it starts is the hyphen alone. */
  lemma RunAfterDash(s: string)
    requires IsSlugShaped(s) && s != [] && !IsAlnum(s[0])
    ensures DropNonAlnum(s) == s[1..]
  {
    if |s| > 1 {
      assert !DashPair(s, 0);
    }
  }

  lemma {:induction false} ReplaceRunsOfSlug(s: string)
    requires IsSlugShaped(s)
    ensures ReplaceRuns(s) == s
  {
    if s != [] {
      var tail := s[1..];
      DropFirstKeepsShape(s);
      ReplaceRunsOfSlug(tail);
      assert s == [s[0]] + tail;
      if !IsAlnum(s[0]) {
        RunAfterDash(s);
        assert s[0] == '-';
      }
    }
  }

  lemma LowerOfSlug(s: string)
    requires forall k :: 0 <= k < |s| ==> IsSlugChar(s[k])
    ensures ToLowerCase(s) == s
  {
  }

  /** A slug-shaped text is its own slug. */
  lemma SlugIsFixed(s: string)
    requires IsSlugShaped(s)
    requires s == [] || (s[0] != '-' && s[|s| - 1] != '-')
    ensures ToTestIdSegment(s) == s
  {
    assert IsTrimmed(s) by {
      if s != [] {
        assert IsSlugChar(s[0]) && IsSlugChar(s[|s| - 1]);
      }
    }
    assert Trim(s) == s;
    LowerOfSlug(s);
    ReplaceRunsOfSlug(s);
  }

  /** Slugging a slug gives it back. */
  lemma ToTestIdSegmentIdempotent(value: string)
    ensures ToTestIdSegment(ToTestIdSegment(value)) == ToTestIdSegment(value)
  {
    SlugIsFixed(ToTestIdSegment(value));
  }
}
