/**
 * Text normalisation and classification used by every extractor:
 * canonical match keys, resident-name sanitising, Levenshtein similarity,
 * the unemployed / header / name / store-name predicates, and cutting a
 * resident's name out of a merged OCR line.
 */
module TextUtils {
  import opened Wrappers
  import opened Seqs
  import opened Strings
  import opened Types

  predicate NotLowerAlnum(c: char) { !IsLowerAlnum(c) }

  /** Characters kept by `replace(/[^a-zA-Z0-9\s'-]/g, '')`. */
  predicate IsNameChar(c: char) { IsAsciiLetter(c) || IsDigit(c) || IsSpace(c) || c == '\'' || c == '-' }
  predicate NotNameChar(c: char) { !IsNameChar(c) }

  /** No two adjacent `x` characters. */
  predicate NoDouble(s: string, x: char)
  {
    forall i :: 0 <= i < |s| - 1 ==> s[i] != x || s[i + 1] != x
  }

  predicate NoDoubleSpace(s: string)
  {
    NoDouble(s, ' ')
  }

  /** Every character of `r` is `x`, or a non-`p` character of `s`. */
  predicate CharsFrom(r: string, s: string, p: char -> bool, x: char)
  {
    forall c :: c in r ==> c == x || (!p(c) && c in s)
  }

  /** No leading or trailing `' '`. */
  predicate SpaceFreeEnds(s: string)
  {
    s != [] ==> s[0] != ' ' && s[|s| - 1] != ' '
  }

  /** The shape of a match key: `[a-z0-9]` words separated by single spaces. */
  predicate Canonical(s: string)
  {
    (forall i :: 0 <= i < |s| ==> IsLowerAlnum(s[i]) || s[i] == ' ') && NoDoubleSpace(s) && SpaceFreeEnds(s)
  }

  /** The shape of a sanitized name: letters, digits, `'`, `-` and single interior spaces. */
  predicate NameShaped(s: string)
  {
    ShapedChars(s) && NoDoubleSpace(s) && SpaceFreeEnds(s)
  }

  predicate IsShapedNameChar(c: char)
  {
    IsAsciiLetter(c) || IsDigit(c) || c == '\'' || c == '-' || c == ' '
  }

  predicate ShapedChars(s: string)
  {
    forall c :: c in s ==> IsShapedNameChar(c)
  }

  // ---------------------------------------------------------------------------
  // Run replacement and trimming facts

  lemma ReplaceRunsHead(s: string, p: char -> bool, x: char)
    requires s != []
    ensures ReplaceRuns(s, p, [x]) != [] && ReplaceRuns(s, p, [x])[0] == (if p(s[0]) then x else s[0])
  {
  }

  lemma {:induction false} ReplaceRunsChars(s: string, p: char -> bool, x: char)
    ensures |ReplaceRuns(s, p, [x])| <= |s| && CharsFrom(ReplaceRuns(s, p, [x]), s, p, x)
    decreases |s|
  {
    if s != [] {
      if p(s[0]) {
        var d := DropWhile(s[1..], p);
        ReplaceRunsChars(d, p, x);
        assert forall c :: c in d ==> c in s;
      } else {
        ReplaceRunsChars(s[1..], p, x);
      }
    }
  }

  lemma {:induction false} ReplaceRunsSingle(s: string, p: char -> bool, x: char)
    requires p(x)
    ensures NoDouble(ReplaceRuns(s, p, [x]), x)
    decreases |s|
  {
    if s != [] {
      var r := ReplaceRuns(s, p, [x]);
      if p(s[0]) {
        var d := DropWhile(s[1..], p);
        ReplaceRunsSingle(d, p, x);
        var t := ReplaceRuns(d, p, [x]);
        assert r == [x] + t;
        if t != [] { ReplaceRunsHead(d, p, x); }
        forall i | 1 <= i < |r| - 1 ensures r[i] != x || r[i + 1] != x {
          assert r[i] == t[i - 1] && r[i + 1] == t[i];
        }
      } else {
        ReplaceRunsSingle(s[1..], p, x);
        var t := ReplaceRuns(s[1..], p, [x]);
        assert r == [s[0]] + t;
        forall i | 1 <= i < |r| - 1 ensures r[i] != x || r[i + 1] != x {
          assert r[i] == t[i - 1] && r[i + 1] == t[i];
        }
      }
    }
  }

  /** A run replacement changes nothing when each run is already a single `x`. */
  lemma {:induction false} ReplaceRunsIdentity(s: string, p: char -> bool, x: char)
    requires forall i :: 0 <= i < |s| && p(s[i]) ==> s[i] == x
    requires forall i :: 0 <= i < |s| - 1 ==> !p(s[i]) || !p(s[i + 1])
    ensures ReplaceRuns(s, p, [x]) == s
  {
    if s != [] {
      ReplaceRunsIdentity(s[1..], p, x);
      if p(s[0]) {
        assert DropWhile(s[1..], p) == s[1..];
      }
      assert s == [s[0]] + s[1..];
    }
  }

  lemma {:induction false} RemoveAllIdentity(s: string, p: char -> bool)
    requires forall i :: 0 <= i < |s| ==> !p(s[i])
    ensures RemoveAll(s, p) == s
  {
    if s != [] {
      RemoveAllIdentity(s[1..], p);
      assert s == [s[0]] + s[1..];
    }
  }

  lemma {:induction false} RemoveAllKeeps(s: string, p: char -> bool)
    ensures forall c :: c in RemoveAll(s, p) ==> c in s
  {
    if s != [] { RemoveAllKeeps(s[1..], p); }
  }

  /** Trimming a string whose ends are not whitespace changes nothing. */
  lemma TrimIdentity(s: string)
    requires s != [] ==> !IsSpace(s[0]) && !IsSpace(s[|s| - 1])
    ensures Trim(s) == s
  {
  }

  /** `Trim(s)` is a slice of `s`. */
  lemma TrimSlice(s: string) returns (a: nat)
    ensures a + |Trim(s)| <= |s| && Trim(s) == s[a..a + |Trim(s)|]
  {
    var ts := TrimStart(s);
    a := |s| - |ts|;
  }

  lemma SliceKeepsShape(s: string, a: nat, b: nat)
    requires a <= b <= |s|
    ensures NoDoubleSpace(s) ==> NoDoubleSpace(s[a..b])
    ensures forall i :: 0 <= i < b - a ==> s[a..b][i] == s[a + i]
  {
  }

  lemma TrimShape(s: string)
    requires NoDoubleSpace(s)
    ensures NoDoubleSpace(Trim(s)) && (forall c :: c in Trim(s) ==> c in s)
    ensures Trim(s) != [] ==> !IsSpace(Trim(s)[0]) && !IsSpace(Trim(s)[|Trim(s)| - 1])
  {
    var a := TrimSlice(s);
    SliceKeepsShape(s, a, a + |Trim(s)|);
  }

  // ---------------------------------------------------------------------------
  // normalizeForMatch / normalizeForNoSpaceMatch

  /** `normalizeForMatch`: lower-case, every non-`[a-z0-9]` run becomes one space, trimmed. */
  function NormalizeForMatch(input: string): (r: string)
    ensures Canonical(r)
  {
    var replaced := ReplaceRuns(StraightenApostrophes(Lower(input)), NotLowerAlnum, " ");
    var trimmed := Trim(replaced);
    ReplaceRunsChars(StraightenApostrophes(Lower(input)), NotLowerAlnum, ' ');
    ReplaceRunsSingle(StraightenApostrophes(Lower(input)), NotLowerAlnum, ' ');
    TrimShape(replaced);
    CanonicalCollapse(trimmed);
    CollapseSpaces(trimmed)
  }

  lemma CanonicalCollapse(t: string)
    requires forall c :: c in t ==> IsLowerAlnum(c) || c == ' '
    requires NoDoubleSpace(t)
    requires t != [] ==> !IsSpace(t[0]) && !IsSpace(t[|t| - 1])
    ensures CollapseSpaces(t) == t && Canonical(t)
  {
    assert forall i :: 0 <= i < |t| ==> t[i] in t;
    ReplaceRunsIdentity(t, IsSpace, ' ');
  }

  /** normalizeForMatch is idempotent: a canonical key normalises to itself. */
  lemma NormalizeCanonicalIdentity(s: string)
    requires Canonical(s)
    ensures NormalizeForMatch(s) == s
  {
    assert Lower(s) == s;
    assert StraightenApostrophes(s) == s;
    ReplaceRunsIdentity(s, NotLowerAlnum, ' ');
    TrimIdentity(s);
    assert forall c :: c in s ==> IsLowerAlnum(c) || c == ' ' by {
      forall c | c in s ensures IsLowerAlnum(c) || c == ' ' {
        var i :| 0 <= i < |s| && s[i] == c;
      }
    }
    CanonicalCollapse(s);
  }

  lemma NormalizeIdempotent(s: string)
    ensures NormalizeForMatch(NormalizeForMatch(s)) == NormalizeForMatch(s)
  {
    NormalizeCanonicalIdentity(NormalizeForMatch(s));
  }

  /** `normalizeForNoSpaceMatch`: the match key with its spaces deleted. */
  function NormalizeNoSpace(input: string): (r: string)
    ensures forall i :: 0 <= i < |r| ==> IsLowerAlnum(r[i])
    ensures |r| <= |NormalizeForMatch(input)|
  {
    var n := NormalizeForMatch(input);
    RemoveAllKeeps(n, IsSpace);
    var r := RemoveAll(n, IsSpace);
    assert forall i :: 0 <= i < |r| ==> r[i] in n && !IsSpace(r[i]);
    r
  }

  /** A no-space key is its own normal form (used where the source normalises twice). */
  lemma NoSpaceIdempotent(s: string)
    ensures NormalizeNoSpace(NormalizeNoSpace(s)) == NormalizeNoSpace(s)
    ensures NormalizeForMatch(NormalizeNoSpace(s)) == NormalizeNoSpace(s)
  {
    var t := NormalizeNoSpace(s);
    assert Canonical(t);
    NormalizeCanonicalIdentity(t);
    RemoveAllIdentity(t, IsSpace);
  }

  lemma NormalizeEmptyNoSpace(s: string)
    ensures NormalizeForMatch(s) == [] <==> NormalizeNoSpace(s) == []
  {
    var n := NormalizeForMatch(s);
    if n != [] {
      assert n[0] != ' ' && IsLowerAlnum(n[0]);
      assert RemoveAll(n, IsSpace) == [n[0]] + RemoveAll(n[1..], IsSpace);
    }
  }

  // ---------------------------------------------------------------------------
  // stripTrailingNumericId / sanitizeResidentName

  /** Length of the run of digits ending `s`. */
  function TrailingDigits(s: string): (k: nat)
    ensures k <= |s|
    ensures forall i :: |s| - k <= i < |s| ==> IsDigit(s[i])
    ensures k < |s| ==> !IsDigit(s[|s| - k - 1])
  {
    if s != [] && IsDigit(s[|s| - 1]) then TrailingDigits(s[..|s| - 1]) + 1 else 0
  }

  /**
   * `input.replace(/\s+\d{3,}\s*$/, '').trim()`. The leftmost match of that
   * pattern starts at the whitespace run just before the final digit run,
   * so the text before that run is kept and trimmed.
   */
  function StripTrailingNumericId(input: string): string
  {
    var t := TrimEnd(input);
    if HasNumericIdSuffix(t) then Trim(t[..|t| - TrailingDigits(t)]) else Trim(input)
  }

  /** `t` ends in whitespace followed by three or more digits. */
  predicate HasNumericIdSuffix(t: string)
  {
    var k := TrailingDigits(t);
    3 <= k < |t| && IsSpace(t[|t| - k - 1])
  }

  /** A whitespace-preceded id of three or more digits is dropped ... */
  lemma {:induction false} StripDropsNumericId(p: string, d: string)
    requires |d| >= 3 && forall i :: 0 <= i < |d| ==> IsDigit(d[i])
    ensures StripTrailingNumericId(p + " " + d) == Trim(p + " ")
  {
    var s := p + " " + d;
    assert TrimEnd(s) == s;
    TrailingDigitsOf(p + " ", d);
    assert s[..|s| - |d|] == p + " ";
  }

  lemma {:induction false} TrailingDigitsOf(p: string, d: string)
    requires p != [] && !IsDigit(p[|p| - 1]) && forall i :: 0 <= i < |d| ==> IsDigit(d[i])
    ensures TrailingDigits(p + d) == |d|
    decreases |d|
  {
    if d == [] {
      assert p + d == p;
    } else {
      var init := d[..|d| - 1];
      assert (p + d)[..|p + d| - 1] == p + init;
      TrailingDigitsOf(p, init);
    }
  }

  /** `s[j - 1]` is whitespace, `s[j..l]` three or more digits and `s[l..]` whitespace. */
  predicate NumericIdAt(s: string, j: int, l: int)
  {
    0 < j && j + 3 <= l <= |s| && IsSpace(s[j - 1])
    && (forall i :: j <= i < l ==> IsDigit(s[i]))
    && (forall i :: l <= i < |s| ==> IsSpace(s[i]))
  }

  /**
   * `/\s+\d{3,}\s*$/` matches `s`: some split `s == p + w + d + w'` has a
   * non-empty whitespace run `w` (one character of it suffices), three or
   * more digits `d` and only whitespace `w'`.
   */
  predicate MatchesNumericId(s: string)
  {
    exists j, l :: 0 < j <= |s| && 0 < l <= |s| && NumericIdAt(s, j, l)
  }

  /** The digits of a match end exactly where `TrimEnd` cuts. */
  lemma MatchEnd(s: string, j: int, l: int)
    requires NumericIdAt(s, j, l)
    ensures |TrimEnd(s)| == l
  {
    var t := TrimEnd(s);
    assert !IsSpace(s[l - 1]);
    assert |t| >= l;
    assert t[|t| - 1] == s[|t| - 1];
  }

  /** The digits of a match are the whole trailing digit run of the trimmed text. */
  lemma MatchRun(t: string, j: int)
    requires 0 < j && j + 3 <= |t| && IsSpace(t[j - 1]) && forall i :: j <= i < |t| ==> IsDigit(t[i])
    ensures TrailingDigits(t) == |t| - j && HasNumericIdSuffix(t)
  {
    assert !IsDigit(t[j - 1]);
  }

  lemma MatchIsSuffix(s: string, j: int, l: int)
    requires NumericIdAt(s, j, l)
    ensures HasNumericIdSuffix(TrimEnd(s))
  {
    MatchEnd(s, j, l);
    var t := TrimEnd(s);
    assert forall i :: j <= i < l ==> t[i] == s[i];
    assert t[j - 1] == s[j - 1];
    MatchRun(t, j);
  }

  lemma SuffixIsMatch(s: string)
    requires HasNumericIdSuffix(TrimEnd(s))
    ensures MatchesNumericId(s)
  {
    var t := TrimEnd(s);
    var j := |t| - TrailingDigits(t);
    assert t[j - 1] == s[j - 1];
    assert forall i :: j <= i < |t| ==> t[i] == s[i];
    assert NumericIdAt(s, j, |t|);
  }

  /** The regex matches exactly when the right-trimmed text ends in whitespace and three or more digits. */
  lemma MatchesNumericIdIff(s: string)
    ensures MatchesNumericId(s) <==> HasNumericIdSuffix(TrimEnd(s))
  {
    if MatchesNumericId(s) {
      var j, l :| NumericIdAt(s, j, l);
      MatchIsSuffix(s, j, l);
    }
    if HasNumericIdSuffix(TrimEnd(s)) {
      SuffixIsMatch(s);
    }
  }

  /** ... and a text the pattern does not match is only trimmed. */
  lemma KeepsWithoutNumericId(s: string)
    requires !MatchesNumericId(s)
    ensures StripTrailingNumericId(s) == Trim(s)
  {
    MatchesNumericIdIff(s);
  }

  /** `sanitizeResidentName` */
  function SanitizeResidentName(input: string): (r: string)
    ensures NameShaped(r)
  {
    var kept := RemoveAll(StraightenApostrophes(input), NotNameChar);
    var collapsed := CollapseSpaces(kept);
    var cleaned := Trim(collapsed);
    SanitizeShape(kept);
    StripTrailingNumericId(cleaned)
  }

  /** The steps of `sanitizeResidentName`, named. */
  lemma SanitizeSteps(input: string) returns (kept: string, cleaned: string)
    ensures kept == RemoveAll(StraightenApostrophes(input), NotNameChar)
    ensures cleaned == Trim(CollapseSpaces(kept))
    ensures SanitizeResidentName(input) == StripTrailingNumericId(cleaned)
  {
    kept := RemoveAll(StraightenApostrophes(input), NotNameChar);
    cleaned := Trim(CollapseSpaces(kept));
  }

  lemma StraightenShaped(s: string)
    requires ShapedChars(s)
    ensures StraightenApostrophes(s) == s
  {
    assert forall i :: 0 <= i < |s| ==> s[i] in s;
  }

  lemma KeptShaped(s: string)
    requires ShapedChars(s)
    ensures RemoveAll(s, NotNameChar) == s
  {
    assert forall i :: 0 <= i < |s| ==> s[i] in s;
    RemoveAllIdentity(s, NotNameChar);
  }

  lemma CollapseShaped(s: string)
    requires ShapedChars(s) && NoDoubleSpace(s)
    ensures CollapseSpaces(s) == s
  {
    assert forall i :: 0 <= i < |s| ==> s[i] in s;
    ReplaceRunsIdentity(s, IsSpace, ' ');
  }

  lemma ShapedEnds(s: string)
    requires NameShaped(s)
    ensures s != [] ==> !IsSpace(s[0]) && !IsSpace(s[|s| - 1])
  {
    assert s != [] ==> s[0] in s && s[|s| - 1] in s;
  }

  /** The character clean-up leaves a name already in sanitized form as it is. */
  lemma CleanShaped(s: string)
    requires NameShaped(s)
    ensures Trim(CollapseSpaces(RemoveAll(StraightenApostrophes(s), NotNameChar))) == s
  {
    StraightenShaped(s);
    KeptShaped(s);
    CollapseShaped(s);
    ShapedEnds(s);
    TrimIdentity(s);
  }

  /** A name already in sanitized form, with no trailing id, is left as it is. */
  lemma SanitizeFixpoint(s: string)
    requires NameShaped(s) && !MatchesNumericId(s)
    ensures SanitizeResidentName(s) == s
  {
    var kept, cleaned := SanitizeSteps(s);
    CleanShaped(s);
    KeepsWithoutNumericId(s);
  }

  predicate NotAlnum(c: char) { !(IsAsciiLetter(c) || IsDigit(c)) }

  /** The letters and digits of `s`, in order. */
  function Alnum(s: string): string
  {
    RemoveAll(s, NotAlnum)
  }

  lemma {:induction false} RemoveAllAppend(a: string, b: string, p: char -> bool)
    ensures RemoveAll(a + b, p) == RemoveAll(a, p) + RemoveAll(b, p)
  {
    if a == [] {
      assert a + b == b;
    } else {
      assert (a + b)[1..] == a[1..] + b;
      RemoveAllAppend(a[1..], b, p);
    }
  }

  /** Removing the `p` characters first changes nothing when `q` removes them anyway. */
  lemma {:induction false} RemoveAllCoarser(s: string, p: char -> bool, q: char -> bool)
    requires forall c :: p(c) ==> q(c)
    ensures RemoveAll(RemoveAll(s, p), q) == RemoveAll(s, q)
  {
    if s != [] {
      RemoveAllCoarser(s[1..], p, q);
      RemoveAllAppend(if p(s[0]) then [] else [s[0]], RemoveAll(s[1..], p), q);
    }
  }

  /** Dropping leading `p` characters changes nothing when `q` removes them anyway. */
  lemma {:induction false} RemoveAllDropped(s: string, p: char -> bool, q: char -> bool)
    requires forall c :: p(c) ==> q(c)
    ensures RemoveAll(DropWhile(s, p), q) == RemoveAll(s, q)
  {
    if s != [] && p(s[0]) {
      RemoveAllDropped(s[1..], p, q);
    }
  }

  lemma {:induction false} AlnumStraighten(s: string)
    ensures Alnum(StraightenApostrophes(s)) == Alnum(s)
  {
    if s != [] {
      assert StraightenApostrophes(s)[1..] == StraightenApostrophes(s[1..]);
      AlnumStraighten(s[1..]);
    }
  }

  lemma {:induction false} AlnumCollapse(s: string)
    ensures Alnum(CollapseSpaces(s)) == Alnum(s)
    decreases |s|
  {
    if s != [] {
      if IsSpace(s[0]) {
        var d := DropWhile(s[1..], IsSpace);
        AlnumCollapse(d);
        RemoveAllDropped(s[1..], IsSpace, NotAlnum);
        assert CollapseSpaces(s) == " " + CollapseSpaces(d);
      } else {
        AlnumCollapse(s[1..]);
        assert CollapseSpaces(s) == [s[0]] + CollapseSpaces(s[1..]);
      }
    }
  }

  lemma {:induction false} AlnumTrimEnd(s: string)
    ensures Alnum(TrimEnd(s)) == Alnum(s)
  {
    if s != [] && IsSpace(s[|s| - 1]) {
      var init := s[..|s| - 1];
      AlnumTrimEnd(init);
      assert s == init + [s[|s| - 1]];
      RemoveAllAppend(init, [s[|s| - 1]], NotAlnum);
    }
  }

  lemma AlnumTrim(s: string)
    ensures Alnum(Trim(s)) == Alnum(s)
  {
    RemoveAllDropped(s, IsSpace, NotAlnum);
    AlnumTrimEnd(TrimStart(s));
  }

  /** Cutting the trailing digit run `d` off `t` and trimming loses only `d`'s letters and digits. */
  lemma CutAlnum(t: string, u: string, d: string)
    requires t == u + d && forall i :: 0 <= i < |d| ==> IsDigit(d[i])
    ensures Alnum(t) == Alnum(Trim(u)) + d
  {
    RemoveAllAppend(u, d, NotAlnum);
    RemoveAllIdentity(d, NotAlnum);
    AlnumTrim(u);
  }

  lemma StripCut(c: string) returns (u: string, d: string)
    requires HasNumericIdSuffix(TrimEnd(c))
    ensures TrimEnd(c) == u + d && StripTrailingNumericId(c) == Trim(u)
    ensures |d| >= 3 && forall i :: 0 <= i < |d| ==> IsDigit(d[i])
  {
    var t := TrimEnd(c);
    u := t[..|t| - TrailingDigits(t)];
    d := t[|t| - TrailingDigits(t)..];
    assert t == u + d;
  }

  /** `stripTrailingNumericId` loses no letter or digit but the digits `d` of the id it drops. */
  lemma StripAlnum(c: string) returns (d: string)
    ensures Alnum(c) == Alnum(StripTrailingNumericId(c)) + d
    ensures (d == [] || |d| >= 3) && forall i :: 0 <= i < |d| ==> IsDigit(d[i])
  {
    AlnumTrimEnd(c);
    if HasNumericIdSuffix(TrimEnd(c)) {
      var u;
      u, d := StripCut(c);
      CutAlnum(TrimEnd(c), u, d);
    } else {
      d := [];
      AlnumTrim(c);
      assert Alnum(StripTrailingNumericId(c)) + d == Alnum(Trim(c));
    }
  }

  lemma PrefixRest(a: string, r: string, d: string)
    requires a == r + d
    ensures r <= a && |a| - |r| == |d| && forall i :: |r| <= i < |a| ==> a[i] == d[i - |r|]
  {
  }

  /**
   * Every letter and digit of the input survives in the sanitized name, in
   * order, except the digits of a dropped trailing id (three or more).
   */
  lemma SanitizeKeepsAlnum(input: string)
    ensures var r := Alnum(SanitizeResidentName(input)); var a := Alnum(input);
      r <= a && (|a| == |r| || |a| - |r| >= 3) && forall i :: |r| <= i < |a| ==> IsDigit(a[i])
  {
    var kept, cleaned := SanitizeSteps(input);
    AlnumStraighten(input);
    RemoveAllCoarser(StraightenApostrophes(input), NotNameChar, NotAlnum);
    AlnumCollapse(kept);
    AlnumTrim(CollapseSpaces(kept));
    var d := StripAlnum(cleaned);
    PrefixRest(Alnum(input), Alnum(SanitizeResidentName(input)), d);
  }

  lemma SanitizeShape(kept: string)
    requires forall i :: 0 <= i < |kept| ==> IsNameChar(kept[i])
    ensures NameShaped(StripTrailingNumericId(Trim(CollapseSpaces(kept))))
  {
    var collapsed := CollapseSpaces(kept);
    CollapsedShape(kept);
    var cleaned := Trim(collapsed);
    TrimShape(collapsed);
    assert ShapedChars(cleaned);
    StripShape(cleaned);
  }

  /** Stripping an id from a trimmed, shaped text leaves a shaped name. */
  lemma StripShape(cleaned: string)
    requires ShapedChars(cleaned) && NoDoubleSpace(cleaned)
    requires cleaned != [] ==> !IsSpace(cleaned[0]) && !IsSpace(cleaned[|cleaned| - 1])
    ensures NameShaped(StripTrailingNumericId(cleaned))
  {
    var t := TrimEnd(cleaned);
    assert t == cleaned;
    if HasNumericIdSuffix(t) {
      var u := t[..|t| - TrailingDigits(t)];
      TrimmedShape(t, u);
    } else {
      TrimIdentity(cleaned);
    }
  }

  lemma TrimmedShape(t: string, u: string)
    requires ShapedChars(t) && NoDoubleSpace(t) && u <= t
    ensures NameShaped(Trim(u))
  {
    SliceKeepsShape(t, 0, |u|);
    assert u == t[0..|u|];
    assert ShapedChars(u);
    TrimShape(u);
  }

  lemma CollapsedShape(kept: string)
    requires forall i :: 0 <= i < |kept| ==> IsNameChar(kept[i])
    ensures ShapedChars(CollapseSpaces(kept)) && NoDoubleSpace(CollapseSpaces(kept))
  {
    var collapsed := CollapseSpaces(kept);
    ReplaceRunsChars(kept, IsSpace, ' ');
    ReplaceRunsSingle(kept, IsSpace, ' ');
    forall c | c in collapsed ensures IsShapedNameChar(c) {
      if c != ' ' {
        var j :| 0 <= j < |kept| && kept[j] == c;
      }
    }
  }

  // ---------------------------------------------------------------------------
  // levenshteinDistance

  function Min3(x: nat, y: nat, z: nat): nat
  {
    if x <= y && x <= z then x else if y <= z then y else z
  }

  /** The step of `LevForeignBound` on plain numbers: each neighbour's bound carries over to the minimum. */
  lemma Min3Bound(up: nat, left: nat, diag: nat, cost: nat, d: int, f: nat, fUp: nat, fLeft: nat, fDiag: nat)
    requires up >= d - 1 + fUp && left >= d + 1 + fLeft && diag >= d + fDiag
    requires f <= fUp && f <= fLeft + 1 && f <= fDiag + cost
    ensures Min3(up + 1, left + 1, diag + cost) >= d + f
  {
  }

  /** `dp[i][j]`: the edit distance between `a[..i]` and `b[..j]`. */
  function Lev(a: string, b: string, i: nat, j: nat): nat
    requires i <= |a| && j <= |b|
    decreases i + j
  {
    if i == 0 then j
    else if j == 0 then i
    else Min3(Lev(a, b, i - 1, j) + 1, Lev(a, b, i, j - 1) + 1,
              Lev(a, b, i - 1, j - 1) + (if a[i - 1] == b[j - 1] then 0 else 1))
  }

  function EditDistance(a: string, b: string): nat
  {
    Lev(a, b, |a|, |b|)
  }

  lemma {:induction false} LevSelf(a: string, i: nat)
    requires i <= |a|
    ensures Lev(a, a, i, i) == 0
  {
    if i > 0 { LevSelf(a, i - 1); }
  }

  function Max(x: int, y: int): int { if x >= y then x else y }

  lemma {:induction false} LevUpper(a: string, b: string, i: nat, j: nat)
    requires i <= |a| && j <= |b|
    ensures Lev(a, b, i, j) <= Max(i, j)
    decreases i + j
  {
    if i > 0 && j > 0 {
      LevUpper(a, b, i - 1, j - 1);
      if i < j { LevUpper(a, b, i, j - 1); }
      if j < i { LevUpper(a, b, i - 1, j); }
    }
  }

  lemma {:induction false} LevLower(a: string, b: string, i: nat, j: nat)
    requires i <= |a| && j <= |b|
    ensures Lev(a, b, i, j) >= i - j && Lev(a, b, i, j) >= j - i
    decreases i + j
  {
    if i > 0 && j > 0 {
      LevLower(a, b, i - 1, j); LevLower(a, b, i, j - 1); LevLower(a, b, i - 1, j - 1);
    }
  }

  lemma {:induction false} LevZero(a: string, b: string, i: nat, j: nat)
    requires i <= |a| && j <= |b| && Lev(a, b, i, j) == 0
    ensures i == j && a[..i] == b[..j]
    decreases i + j
  {
    if i > 0 && j > 0 {
      LevLower(a, b, i - 1, j); LevLower(a, b, i, j - 1);
      LevStep(a, b, i, j);
      assert Lev(a, b, i - 1, j - 1) == 0 && a[i - 1] == b[j - 1];
      LevZero(a, b, i - 1, j - 1);
      assert a[..i] == a[..i - 1] + [a[i - 1]];
      assert b[..j] == b[..j - 1] + [b[j - 1]];
    }
  }

  /** Number of positions `k < j` whose character `b[k]` does not occur in `a[..i]`. */
  function Foreign(b: string, j: nat, a: string, i: nat): nat
    requires j <= |b| && i <= |a|
  {
    if j == 0 then 0 else Foreign(b, j - 1, a, i) + (if b[j - 1] in a[..i] then 0 else 1)
  }

  lemma {:induction false} ForeignShrinks(b: string, j: nat, a: string, i: nat)
    requires j <= |b| && 0 < i <= |a|
    ensures Foreign(b, j, a, i) <= Foreign(b, j, a, i - 1)
  {
    if j > 0 {
      ForeignShrinks(b, j - 1, a, i);
      assert a[..i] == a[..i - 1] + [a[i - 1]];
      assert b[j - 1] in a[..i - 1] ==> b[j - 1] in a[..i];
    }
  }

  lemma ForeignAll(b: string, j: nat, a: string)
    requires j <= |b|
    ensures Foreign(b, j, a, 0) == j
  {
    if j > 0 { ForeignAll(b, j - 1, a); }
  }

  /**
   * Every character of `b` that `a` lacks costs an insertion or a
   * substitution, and the length difference costs deletions:
   * `Lev >= (|a| - |b|) + #foreign(b)`.
   */
  lemma {:induction false} LevForeignBound(a: string, b: string, i: nat, j: nat)
    requires i <= |a| && j <= |b|
    ensures Lev(a, b, i, j) >= i - j + Foreign(b, j, a, i)
    decreases i + j
  {
    if i == 0 {
      ForeignAll(b, j, a);
    } else if j == 0 {
    } else {
      ForeignStep(a, b, i, j);
      LevForeignBound(a, b, i - 1, j);
      LevForeignBound(a, b, i, j - 1);
      LevForeignBound(a, b, i - 1, j - 1);
      LevStep(a, b, i, j);
      var cost := if a[i - 1] == b[j - 1] then 0 else 1;
      Min3Bound(Lev(a, b, i - 1, j), Lev(a, b, i, j - 1), Lev(a, b, i - 1, j - 1), cost, i - j,
                Foreign(b, j, a, i), Foreign(b, j, a, i - 1), Foreign(b, j - 1, a, i), Foreign(b, j - 1, a, i - 1));
    }
  }

  /** How the foreign count compares with its three neighbours in the table. */
  lemma ForeignStep(a: string, b: string, i: nat, j: nat)
    requires 0 < i <= |a| && 0 < j <= |b|
    ensures Foreign(b, j, a, i) <= Foreign(b, j, a, i - 1)
    ensures Foreign(b, j, a, i) <= Foreign(b, j - 1, a, i) + 1
    ensures Foreign(b, j, a, i) <= Foreign(b, j - 1, a, i - 1) + (if a[i - 1] == b[j - 1] then 0 else 1)
  {
    ForeignShrinks(b, j, a, i);
    ForeignShrinks(b, j - 1, a, i);
    if a[i - 1] == b[j - 1] {
      assert a[..i][i - 1] == b[j - 1];
    }
  }

  /** One row of the `dp` table, from the row above it. */
  method FillRow(dp: array2<nat>, a: string, b: string, above: nat, i: nat)
    requires dp.Length0 == |a| + 1 && dp.Length1 == |b| + 1 && i == above + 1 <= |a|
    requires forall c {:trigger dp[above, c]} :: 0 <= c <= |b| ==> dp[above, c] == Lev(a, b, above, c)
    requires dp[i, 0] == i
    modifies dp
    ensures forall c {:trigger dp[i, c]} :: 0 <= c <= |b| ==> dp[i, c] == Lev(a, b, i, c)
    ensures forall r, c :: 0 <= r < dp.Length0 && r != i && 0 <= c < dp.Length1 ==> dp[r, c] == old(dp[r, c])
  {
    for j := 1 to |b| + 1
      invariant forall c {:trigger dp[i, c]} :: 0 <= c < j ==> dp[i, c] == Lev(a, b, i, c)
      invariant forall r, c :: 0 <= r < dp.Length0 && r != i && 0 <= c < dp.Length1 ==> dp[r, c] == old(dp[r, c])
    {
      var cost := if a[i - 1] == b[j - 1] then 0 else 1;
      var up, left, diag := dp[above, j], dp[i, j - 1], dp[above, j - 1];
      LevStep(a, b, i, j);
      var cell := Min3(up + 1, left + 1, diag + cost);
      assert cell == Lev(a, b, i, j);
      dp[i, j] := cell;
    }
  }

  lemma LevStep(a: string, b: string, i: nat, j: nat)
    requires 1 <= i <= |a| && 1 <= j <= |b|
    ensures Lev(a, b, i, j) == Min3(Lev(a, b, i - 1, j) + 1, Lev(a, b, i, j - 1) + 1,
                                    Lev(a, b, i - 1, j - 1) + (if a[i - 1] == b[j - 1] then 0 else 1))
  {
  }

  /** `levenshteinDistance`, filling the `dp` table row by row. */
  method LevenshteinDistance(a: string, b: string) returns (d: nat)
    ensures d == EditDistance(a, b)
  {
    if a == b {
      LevSelf(a, |a|);
      return 0;
    }
    if |a| == 0 { return |b|; }
    if |b| == 0 { return |a|; }
    var n, m := |a|, |b|;
    var dp := new nat[n + 1, m + 1];
    for i := 0 to n + 1
      invariant forall r :: 0 <= r < i ==> dp[r, 0] == r
    {
      dp[i, 0] := i;
    }
    for j := 0 to m + 1
      invariant forall c :: 0 <= c < j ==> dp[0, c] == c
      invariant forall r :: 1 <= r <= n ==> dp[r, 0] == r
    {
      dp[0, j] := j;
    }
    for i := 1 to n + 1
      invariant forall r, c {:trigger dp[r, c]} :: 0 <= r < i && 0 <= c <= m ==> dp[r, c] == Lev(a, b, r, c)
      invariant forall r :: i <= r <= n ==> dp[r, 0] == r
    {
      FillRow(dp, a, b, i - 1, i);
    }
    d := dp[n, m];
  }

  // ---------------------------------------------------------------------------
  // similarity / similarityNoSpace

  lemma LevRatioFacts(aa: string, bb: string)
    ensures EditDistance(aa, bb) <= Max(|aa|, |bb|)
    ensures EditDistance(aa, bb) == 0 <==> aa == bb
  {
    LevUpper(aa, bb, |aa|, |bb|);
    if EditDistance(aa, bb) == 0 { LevZero(aa, bb, |aa|, |bb|); }
    if aa == bb { LevSelf(aa, |aa|); }
  }

  /** `1 - dist / max(|aa|, |bb|)` for two non-empty keys. */
  function Ratio(aa: string, bb: string): (r: real)
    requires aa != [] && bb != []
    ensures 0.0 <= r <= 1.0
    ensures r == 1.0 <==> aa == bb
  {
    var dist := EditDistance(aa, bb);
    var denom := Max(|aa|, |bb|);
    LevRatioFacts(aa, bb);
    FractionFacts(dist, denom);
    if denom == 0 then 0.0 else 1.0 - (dist as real) / (denom as real)
  }

  /** A fraction `d / n` with `0 <= d <= n` lies in [0,1] and is 0 only for `d == 0`. */
  lemma FractionFacts(d: int, n: int)
    requires 0 <= d <= n && n > 0
    ensures 0.0 <= (d as real) / (n as real) <= 1.0
    ensures (d as real) / (n as real) == 0.0 <==> d == 0
  {
    var q := (d as real) / (n as real);
    assert q * (n as real) == d as real;
  }

  /** `similarity`: a score in [0,1] that is 1 exactly for equal non-empty match keys. */
  function Similarity(a: string, b: string): (r: real)
    ensures 0.0 <= r <= 1.0
    ensures NormalizeForMatch(a) == [] || NormalizeForMatch(b) == [] ==> r == 0.0
    ensures r == 1.0 <==> NormalizeForMatch(a) != [] && NormalizeForMatch(a) == NormalizeForMatch(b)
  {
    var aa := NormalizeForMatch(a);
    var bb := NormalizeForMatch(b);
    if aa == [] || bb == [] then 0.0 else Ratio(aa, bb)
  }

  /** `similarityNoSpace`: the same score on the no-space keys. */
  function SimilarityNoSpace(a: string, b: string): (r: real)
    ensures 0.0 <= r <= 1.0
    ensures NormalizeNoSpace(a) == [] || NormalizeNoSpace(b) == [] ==> r == 0.0
    ensures r == 1.0 <==> NormalizeNoSpace(a) != [] && NormalizeNoSpace(a) == NormalizeNoSpace(b)
  {
    var aa := NormalizeNoSpace(a);
    var bb := NormalizeNoSpace(b);
    if aa == [] || bb == [] then 0.0 else Ratio(aa, bb)
  }

  /** Characters of `bb` absent from `aa` cap the ratio of two keys. */
  lemma RatioCeiling(aa: string, bb: string)
    requires aa != [] && bb != []
    ensures Ratio(aa, bb) <= 1.0 - ((|aa| - |bb| + Foreign(bb, |bb|, aa, |aa|)) as real) / (Max(|aa|, |bb|) as real)
  {
    LevForeignBound(aa, bb, |aa|, |bb|);
    DivideMonotone((|aa| - |bb| + Foreign(bb, |bb|, aa, |aa|)) as real, EditDistance(aa, bb) as real, Max(|aa|, |bb|) as real);
  }

  lemma DivideMonotone(x: real, y: real, d: real)
    requires x <= y && d > 0.0
    ensures x / d <= y / d
  {
    assert y / d - x / d == (y - x) / d;
  }

  // ---------------------------------------------------------------------------
  // collapseImmediateDuplicateNoSpace

  /** `collapseImmediateDuplicateNoSpace`: the half `h` of a no-space key of the form `h + h` (length at least 8). */
  function CollapseImmediateDuplicate(input: string): (r: Option<string>)
    ensures r.Some? ==> |NormalizeNoSpace(input)| >= 8 && NormalizeNoSpace(input) == r.value + r.value
  {
    var noSpace := NormalizeNoSpace(input);
    if |noSpace| < 8 then None
    else if |noSpace| % 2 != 0 then None
    else
      var half := |noSpace| / 2;
      var a := noSpace[..half];
      var b := noSpace[half..];
      DoubledIff(noSpace, a);
      if a == b then Some(a) else None
  }

  /** Both directions: the result is `Some(h)` exactly for a doubled key `h + h` of length at least 8. */
  lemma CollapseImmediateDuplicateIff(input: string, h: string)
    ensures CollapseImmediateDuplicate(input) == Some(h)
        <==> |NormalizeNoSpace(input)| >= 8 && NormalizeNoSpace(input) == h + h
  {
    DoubledIff(NormalizeNoSpace(input), h);
  }

  // ---------------------------------------------------------------------------
  // Predicates

  /** `isUnemployedText` */
  predicate IsUnemployedText(text: string)
  {
    var t := NormalizeNoSpace(text);
    if t == [] then false
    else if t == "unemployed" then true
    else if Contains(t, "unemploy") || Contains(t, "nemploy") || Contains(t, "employ") then true
    else SimilarityNoSpace(t, "unemployed") >= 0.6
  }

  /** Text whose no-space key is empty is never unemployed-like; one containing "employ" always is. */
  lemma UnemployedBasics(text: string)
    ensures NormalizeForMatch(text) == [] ==> !IsUnemployedText(text)
    ensures Contains(NormalizeNoSpace(text), "employ") ==> IsUnemployedText(text)
  {
    NormalizeEmptyNoSpace(text);
  }

  /** A string of `[a-z0-9]` characters is its own no-space key. */
  lemma NoSpaceOfKey(s: string)
    requires forall i :: 0 <= i < |s| ==> IsLowerAlnum(s[i])
    ensures NormalizeNoSpace(s) == s
  {
    assert Canonical(s) by {
      forall c | c in s ensures IsLowerAlnum(c) {
        var i :| 0 <= i < |s| && s[i] == c;
      }
    }
    NormalizeCanonicalIdentity(s);
    RemoveAllIdentity(s, IsSpace);
  }

  lemma NoSpaceOfUnemployed()
    ensures NormalizeNoSpace("unemployed") == "unemployed"
  {
    var u := "unemployed";
    forall i | 0 <= i < |u| ensures IsLowerAlnum(u[i]) {
    }
    NoSpaceOfKey(u);
  }

  /** The match key ignores letter case. */
  lemma NormalizeLowerInvariant(s: string)
    ensures NormalizeForMatch(Lower(s)) == NormalizeForMatch(s)
    ensures NormalizeNoSpace(Lower(s)) == NormalizeNoSpace(s)
  {
    assert Lower(Lower(s)) == Lower(s);
  }

  /** The placeholder `'UNEMPLOYED'` is itself unemployed-like. */
  lemma UnemployedWord()
    ensures IsUnemployedText("UNEMPLOYED")
  {
    LowerUnemployed();
    NormalizeLowerInvariant("UNEMPLOYED");
    NoSpaceOfUnemployed();
    UnemployedKey("UNEMPLOYED");
  }

  lemma LowerUnemployed()
    ensures Lower("UNEMPLOYED") == "unemployed"
  {
  }

  lemma UnemployedKey(text: string)
    requires NormalizeNoSpace(text) == "unemployed"
    ensures IsUnemployedText(text)
  {
  }

  /** A key shorter than six characters scores below 0.6 against a ten-character key. */
  lemma ShortKeyScoresLow(t: string, u: string)
    requires t != [] && |t| < 6 && |u| == 10
    ensures Ratio(t, u) < 0.6
  {
    LevLower(t, u, |t|, |u|);
    var d := EditDistance(t, u);
    assert Max(|t|, |u|) == 10;
    DivideMonotone(5.0, d as real, 10.0);
  }

  /** An unemployed-like text has a no-space key of at least six characters. */
  lemma UnemployedNeedsSix(text: string)
    requires IsUnemployedText(text)
    ensures |NormalizeNoSpace(text)| >= 6
  {
    var t := NormalizeNoSpace(text);
    if |t| < 6 {
      ContainsLonger(t, "employ");
      ContainsLonger(t, "nemploy");
      ContainsLonger(t, "unemploy");
      NoSpaceIdempotent(text);
      NoSpaceOfUnemployed();
      ShortKeyScoresLow(t, "unemployed");
    }
  }

  predicate AllDigitsOrSpace(t: string)
  {
    forall i :: 0 <= i < |t| ==> IsDigit(t[i]) || IsSpace(t[i])
  }

  /** `looksLikeHeaderOrNoise` */
  predicate LooksLikeHeaderOrNoise(text: string)
  {
    var t := NormalizeForMatch(text);
    if t == [] then true
    else if Contains(t, "dream jobs") || t == "job" || Contains(t, "dream") then true
    else AllDigitsOrSpace(t)
  }

  /**
   * Header and noise text is never a likely store name, except for the
   * header words themselves: an empty or all-digit key is rejected by both.
   */
  lemma NoiseIsNoStoreName(text: string)
    ensures LooksLikeHeaderOrNoise(text) && IsLikelyStoreName(text) ==>
              var t := NormalizeForMatch(text);
              Contains(t, "dream jobs") || t == "job" || Contains(t, "dream")
    ensures NormalizeForMatch(text) == [] ==> LooksLikeHeaderOrNoise(text) && !IsLikelyStoreName(text)
  {
  }

  /** `isLikelyName` */
  predicate IsLikelyName(text: string)
  {
    var cleaned := SanitizeResidentName(text);
    if cleaned == [] then false
    else if IsUnemployedText(cleaned) || IsUnemployedText(text) then false
    else if |cleaned| < 3 then false
    else if SomeChar(cleaned, IsDigit) then false
    else if !(' ' in cleaned) && |cleaned| < 6 then false
    else true
  }

  /** Letters, apostrophes, hyphens and single inner spaces; at least three characters, six without a space. */
  predicate LetterName(s: string)
  {
    |s| >= 3 && NameShaped(s)
    && (forall i :: 0 <= i < |s| ==> IsAsciiLetter(s[i]) || s[i] == '\'' || s[i] == '-' || s[i] == ' ')
    && (' ' !in s ==> |s| >= 6)
  }

  /** What a likely name looks like once sanitized. */
  lemma LikelyNameShape(text: string)
    requires IsLikelyName(text)
    ensures LetterName(SanitizeResidentName(text))
    ensures !IsUnemployedText(SanitizeResidentName(text)) && !IsUnemployedText(text)
  {
    var s := SanitizeResidentName(text);
    assert !SomeChar(s, IsDigit);
    ShapedLetters(s);
  }

  /** A shaped text without digits is made of letters, apostrophes, hyphens and spaces. */
  lemma ShapedLetters(s: string)
    requires NameShaped(s) && !SomeChar(s, IsDigit)
    ensures forall i :: 0 <= i < |s| ==> IsAsciiLetter(s[i]) || s[i] == '\'' || s[i] == '-' || s[i] == ' '
  {
    forall i | 0 <= i < |s| ensures IsAsciiLetter(s[i]) || s[i] == '\'' || s[i] == '-' || s[i] == ' ' {
      assert IsShapedNameChar(s[i]);
      assert !IsDigit(s[i]);
    }
  }

  /** A likely name is never empty. */
  lemma LikelyNameNonEmpty(text: string)
    requires IsLikelyName(text)
    ensures text != []
  {
  }

  /** `isLikelyStoreName` */
  predicate IsLikelyStoreName(text: string)
  {
    var t := NormalizeForMatch(text);
    if t == [] then false
    else if |t| < 3 then false
    else if IsUnemployedText(t) || IsUnemployedText(text) then false
    else !AllDigitsOrSpace(t)
  }

  /** A likely store name has a match key of at least three characters with a letter in it. */
  lemma LikelyStoreNameShape(text: string)
    requires IsLikelyStoreName(text)
    ensures |NormalizeForMatch(text)| >= 3 && !IsUnemployedText(text)
    ensures exists i :: 0 <= i < |NormalizeForMatch(text)| && 'a' <= NormalizeForMatch(text)[i] <= 'z'
  {
    var t := NormalizeForMatch(text);
    var i :| 0 <= i < |t| && !IsDigit(t[i]) && !IsSpace(t[i]);
  }

  // ---------------------------------------------------------------------------
  // extractResidentNameFromOcrLine

  /** `s.split(/\s+/).filter(Boolean)` */
  function Words(s: string): seq<string>
    decreases |s|
  {
    var t := DropWhile(s, IsSpace);
    if t == [] then []
    else
      var w := DropWhile(t, NotSpace);
      [t[..|t| - |w|]] + Words(w)
  }

  /** Case-insensitive comparison of `t[i..i + |w|]` with `w` (the `i` flag, ASCII). */
  predicate WordAtIgnoreCase(t: string, i: nat, w: string)
  {
    i + |w| <= |t| && Lower(t[i..i + |w|]) == Lower(w)
  }

  predicate IsSeparatorChar(c: char, realSpace: bool)
  {
    if realSpace then IsSpace(c) else c == 's' || c == 'S'
  }

  /**
   * The remainder of `\bw1 SEP w2 ... SEP wn\b` from position `i`, where
   * `words` are the words still to match. With `realSpace` SEP is `\s+`
   * (the monolith). Otherwise it is what the modular copy's joiner
   * `'\\\\s+'` compiles to: a literal backslash followed by one or more
   * `s` (either case, under the `i` flag).
   */
  predicate WordsMatchAt(t: string, i: nat, words: seq<string>, realSpace: bool)
    requires i <= |t| && words != []
    decreases |t| - i, 1
  {
    WordAtIgnoreCase(t, i, words[0])
    && if |words| == 1 then Boundary(t, i + |words[0]|)
       else if realSpace then SeparatorRun(t, i + |words[0]|, words[1..], true)
       else i + |words[0]| < |t| && t[i + |words[0]|] == '\\' && SeparatorRun(t, i + |words[0]| + 1, words[1..], false)
  }

  /** One or more separator characters from `q`, then the remaining words (with backtracking). */
  predicate SeparatorRun(t: string, q: nat, words: seq<string>, realSpace: bool)
    requires q <= |t| && words != []
    decreases |t| - q, 0
  {
    q < |t| && IsSeparatorChar(t[q], realSpace)
    && (WordsMatchAt(t, q + 1, words, realSpace) || SeparatorRun(t, q + 1, words, realSpace))
  }

  predicate PatternAt(t: string, i: nat, words: seq<string>, realSpace: bool)
    requires i <= |t| && words != []
  {
    Boundary(t, i) && WordsMatchAt(t, i, words, realSpace)
  }

  /** Index of the leftmost match at or after `from` (what `RegExp.exec` reports), or -1. */
  function PatternIndex(t: string, words: seq<string>, realSpace: bool, from: nat): (r: int)
    requires from <= |t| && words != []
    ensures r == -1 || (from <= r <= |t| && PatternAt(t, r, words, realSpace))
    ensures forall k :: from <= k <= |t| && (r == -1 || k < r) ==> !PatternAt(t, k, words, realSpace)
    decreases |t| - from
  {
    if PatternAt(t, from, words, realSpace) then from
    else if from == |t| then -1
    else PatternIndex(t, words, realSpace, from + 1)
  }

  /** Length of the digit run starting at `k`. */
  function DigitRun(t: string, k: nat): (n: nat)
    ensures k + n <= |t| || n == 0
    decreases |t| - k
  {
    if k < |t| && IsDigit(t[k]) then 1 + DigitRun(t, k + 1) else 0
  }

  /**
   * `/\b[a-zA-Z]\d{2,}\b/` at `i`. The closing `\b` after a digit can only
   * hold at the end of the whole digit run, so backtracking never helps.
   */
  predicate LetterDigitsAt(t: string, i: nat)
  {
    i < |t| && Boundary(t, i) && IsAsciiLetter(t[i]) && DigitRun(t, i + 1) >= 2
    && Boundary(t, i + 1 + DigitRun(t, i + 1))
  }

  function LetterDigitsIndex(t: string, from: nat): (r: int)
    ensures r == -1 || (from <= r < |t| && LetterDigitsAt(t, r))
    ensures forall k :: from <= k < |t| && (r == -1 || k < r) ==> !LetterDigitsAt(t, k)
    decreases |t| - from
  {
    if from >= |t| then -1
    else if LetterDigitsAt(t, from) then from
    else LetterDigitsIndex(t, from + 1)
  }

  /** The nested `indexOfIgnoreCase`: -1 for an empty needle. */
  function IndexOfIgnoreCase(h: string, n: string): int
  {
    if Lower(n) == [] then -1 else IndexOf(Lower(h), Lower(n))
  }

  /** One cut candidate: taken when positive and earlier than the current cut. */
  function Offer(cut: int, idx: int): int
  {
    if idx > 0 && (cut == -1 || idx < cut) then idx else cut
  }

  /** The candidates offered in order. */
  function OfferAll(cut: int, idxs: seq<int>): int
    decreases |idxs|
  {
    if idxs == [] then cut else OfferAll(Offer(cut, idxs[0]), idxs[1..])
  }

  /**
   * The cut candidates one catalogue store offers, in the order the loop
   * offers them: the word pattern and, in the modular copy only, the plain
   * and the whitespace-collapsed case-insensitive substring positions.
   */
  function StoreIndices(trimmed: string, store: Store, monolith: bool): seq<int>
  {
    var words := Words(Trim(store.name));
    if words == [] then []
    else if monolith then [PatternIndex(trimmed, words, true, 0)]
    else [PatternIndex(trimmed, words, false, 0), IndexOfIgnoreCase(trimmed, store.name),
          IndexOfIgnoreCase(CollapseSpaces(trimmed), CollapseSpaces(Trim(store.name)))]
  }

  /** The candidates of every store, store by store. */
  function StoreGroups(trimmed: string, stores: seq<Store>, monolith: bool): seq<seq<int>>
  {
    MapSeq(stores, store => StoreIndices(trimmed, store, monolith))
  }

  /** The store loop: each group of candidates offered in turn. */
  function CutFold(cut: int, groups: seq<seq<int>>): int
    decreases |groups|
  {
    if groups == [] then cut else CutFold(OfferAll(cut, groups[0]), groups[1..])
  }

  function Flatten(groups: seq<seq<int>>): seq<int>
  {
    if groups == [] then [] else groups[0] + Flatten(groups[1..])
  }

  /** `c` is the earliest positive point of `points`, or -1 when none is positive. */
  predicate IsEarliest(c: int, points: seq<int>)
  {
    (c == -1 && forall p :: p in points ==> p <= 0)
    || (c > 0 && c in points && forall p :: p in points && p > 0 ==> c <= p)
  }

  /** The earliest positive point is unique. */
  lemma EarliestUnique(c: int, d: int, points: seq<int>)
    requires IsEarliest(c, points) && IsEarliest(d, points)
    ensures c == d
  {
  }

  lemma OfferEarliest(c: int, points: seq<int>, x: int)
    requires IsEarliest(c, points)
    ensures IsEarliest(Offer(c, x), points + [x])
  {
  }

  lemma {:induction false} OfferAllEarliest(c: int, points: seq<int>, xs: seq<int>)
    requires IsEarliest(c, points)
    ensures IsEarliest(OfferAll(c, xs), points + xs)
    decreases |xs|
  {
    if xs == [] {
      assert points + xs == points;
    } else {
      OfferEarliest(c, points, xs[0]);
      OfferAllEarliest(Offer(c, xs[0]), points + [xs[0]], xs[1..]);
      assert points + [xs[0]] + xs[1..] == points + xs;
    }
  }

  lemma {:induction false} CutFoldEarliest(c: int, points: seq<int>, groups: seq<seq<int>>)
    requires IsEarliest(c, points)
    ensures IsEarliest(CutFold(c, groups), points + Flatten(groups))
    decreases |groups|
  {
    if groups == [] {
      assert points + [] == points;
    } else {
      OfferAllEarliest(c, points, groups[0]);
      CutFoldEarliest(OfferAll(c, groups[0]), points + groups[0], groups[1..]);
      assert points + groups[0] + Flatten(groups[1..]) == points + Flatten(groups);
    }
  }

  /** Offering one more group at the end. */
  lemma {:induction false} CutFoldSnoc(c: int, groups: seq<seq<int>>, g: seq<int>)
    ensures CutFold(c, groups + [g]) == OfferAll(CutFold(c, groups), g)
    decreases |groups|
  {
    if groups == [] {
      assert [] + [g] == [g];
      assert [g][1..] == [];
    } else {
      assert (groups + [g])[1..] == groups[1..] + [g];
      CutFoldSnoc(OfferAll(c, groups[0]), groups[1..], g);
    }
  }

  /** Where `\bunemployed\b` (case-insensitive) first matches, or -1. */
  function UnemployedIndex(trimmed: string): int
  {
    PatternIndex(trimmed, ["unemployed"], false, 0)
  }

  /**
   * Every position the name cut may happen at: "unemployed"; when that is
   * not at a positive index, each store's positions; the first digit; and
   * a letter followed by two or more digits.
   */
  function CutPoints(trimmed: string, stores: Option<seq<Store>>, monolith: bool): seq<int>
  {
    var u := UnemployedIndex(trimmed);
    [u] + (if u <= 0 && stores.Some? then Flatten(StoreGroups(trimmed, stores.value, monolith)) else [])
    + [FindIndex(trimmed, IsDigit), LetterDigitsIndex(trimmed, 0)]
  }

  /** The cut index the source computes, as a fold over its steps. */
  function CutIndex(trimmed: string, stores: Option<seq<Store>>, monolith: bool): int
  {
    var u := UnemployedIndex(trimmed);
    var c0 := if u > 0 then u else -1;
    var c1 := if c0 == -1 && stores.Some? then CutFold(c0, StoreGroups(trimmed, stores.value, monolith)) else c0;
    OfferAll(c1, [FindIndex(trimmed, IsDigit), LetterDigitsIndex(trimmed, 0)])
  }

  /** The computed cut is the earliest positive cut point, or -1 when there is none. */
  lemma CutIndexIsEarliest(trimmed: string, stores: Option<seq<Store>>, monolith: bool)
    ensures IsEarliest(CutIndex(trimmed, stores, monolith), CutPoints(trimmed, stores, monolith))
  {
    var u := UnemployedIndex(trimmed);
    var c0 := if u > 0 then u else -1;
    assert IsEarliest(c0, [u]);
    var c1 := if c0 == -1 && stores.Some? then CutFold(c0, StoreGroups(trimmed, stores.value, monolith)) else c0;
    var pts1 := [u] + (if u <= 0 && stores.Some? then Flatten(StoreGroups(trimmed, stores.value, monolith)) else []);
    if c0 == -1 && stores.Some? {
      CutFoldEarliest(c0, [u], StoreGroups(trimmed, stores.value, monolith));
    } else {
      assert pts1 == [u];
    }
    OfferAllEarliest(c1, pts1, [FindIndex(trimmed, IsDigit), LetterDigitsIndex(trimmed, 0)]);
  }

  /** `trimmed.slice(0, cut)`, which clamps an index past the end. */
  function SliceTo(s: string, cut: int): string
    requires cut > 0
  {
    if cut <= |s| then s[..cut] else s
  }

  /** The sanitized text before cut `cut` (all of it when `cut` is not positive); never unemployed-like. */
  function NameBeforeCut(trimmed: string, cut: int): (name: string)
    ensures NameShaped(name) && !IsUnemployedText(name)
  {
    var candidate := Trim(if cut > 0 then SliceTo(trimmed, cut) else trimmed);
    var name := SanitizeResidentName(candidate);
    UnemployedBasics([]);
    if IsUnemployedText(name) then [] else name
  }

  /** `extractResidentNameFromOcrLine` */
  function ExtractResidentName(raw: string, stores: Option<seq<Store>>, monolith: bool): (name: string)
    ensures NameShaped(name) && !IsUnemployedText(name)
    ensures Trim(raw) == [] ==> name == []
  {
    var trimmed := Trim(raw);
    if trimmed == [] then [] else NameBeforeCut(trimmed, CutIndex(trimmed, stores, monolith))
  }

  /** The result is the sanitized prefix before the earliest positive cut point. */
  lemma ExtractCutsAtEarliest(raw: string, stores: Option<seq<Store>>, monolith: bool, c: int)
    requires Trim(raw) != [] && IsEarliest(c, CutPoints(Trim(raw), stores, monolith))
    ensures ExtractResidentName(raw, stores, monolith) == NameBeforeCut(Trim(raw), c)
  {
    CutIndexIsEarliest(Trim(raw), stores, monolith);
    EarliestUnique(c, CutIndex(Trim(raw), stores, monolith), CutPoints(Trim(raw), stores, monolith));
  }

  lemma OfferAllOne(c: int, x: int)
    ensures OfferAll(c, [x]) == Offer(c, x)
  {
    assert [x][1..] == [];
  }

  lemma OfferAllTwo(c: int, x: int, y: int)
    ensures OfferAll(c, [x, y]) == Offer(Offer(c, x), y)
  {
    assert [x, y][1..] == [y];
    OfferAllOne(Offer(c, x), y);
  }

  lemma OfferAllThree(c: int, x: int, y: int, z: int)
    ensures OfferAll(c, [x, y, z]) == Offer(Offer(Offer(c, x), y), z)
  {
    assert [x, y, z][1..] == [y, z];
    OfferAllTwo(Offer(c, x), y, z);
  }

  /** The body of the store loop for one store. */
  method OfferStore(trimmed: string, store: Store, monolith: bool, cut0: int) returns (cut: int)
    ensures cut == OfferAll(cut0, StoreIndices(trimmed, store, monolith))
  {
    cut := cut0;
    var words := Words(Trim(store.name));
    if words == [] { return; }
    var m := PatternIndex(trimmed, words, monolith, 0);
    if m > 0 && (cut == -1 || m < cut) { cut := m; }
    if monolith {
      OfferAllOne(cut0, m);
    } else {
      var idxExact := IndexOfIgnoreCase(trimmed, store.name);
      if idxExact > 0 && (cut == -1 || idxExact < cut) { cut := idxExact; }
      var idxCollapsed := IndexOfIgnoreCase(CollapseSpaces(trimmed), CollapseSpaces(Trim(store.name)));
      if idxCollapsed > 0 && (cut == -1 || idxCollapsed < cut) { cut := idxCollapsed; }
      OfferAllThree(cut0, m, idxExact, idxCollapsed);
    }
  }

  /** The store loop as the source writes it, over the catalogue. */
  method CutAtStores(trimmed: string, stores: seq<Store>, monolith: bool, start: int) returns (cut: int)
    ensures cut == CutFold(start, StoreGroups(trimmed, stores, monolith))
  {
    cut := start;
    var i := 0;
    while i < |stores|
      invariant 0 <= i <= |stores|
      invariant cut == CutFold(start, StoreGroups(trimmed, stores[..i], monolith))
    {
      var g := StoreGroups(trimmed, stores[..i], monolith);
      MapSeqSnoc(stores, store => StoreIndices(trimmed, store, monolith), i);
      CutFoldSnoc(start, g, StoreIndices(trimmed, stores[i], monolith));
      cut := OfferStore(trimmed, stores[i], monolith, cut);
      i := i + 1;
    }
    assert stores[..i] == stores;
  }

  /** The cut index of `extractResidentNameFromOcrLine`, updated step by step. */
  method ComputeCutIndex(trimmed: string, stores: Option<seq<Store>>, monolith: bool) returns (cutIndex: int)
    ensures cutIndex == CutIndex(trimmed, stores, monolith)
  {
    cutIndex := -1;
    var u := UnemployedIndex(trimmed);
    if u > 0 { cutIndex := u; }
    if cutIndex == -1 && stores.Some? {
      cutIndex := CutAtStores(trimmed, stores.value, monolith, cutIndex);
    }
    var c1 := cutIndex;
    var firstDigit := FindIndex(trimmed, IsDigit);
    if firstDigit > 0 {
      cutIndex := if cutIndex == -1 then firstDigit else (if firstDigit < cutIndex then firstDigit else cutIndex);
    }
    var letterDigits := LetterDigitsIndex(trimmed, 0);
    if letterDigits > 0 {
      cutIndex := if cutIndex == -1 then letterDigits else (if letterDigits < cutIndex then letterDigits else cutIndex);
    }
    OfferAllTwo(c1, firstDigit, letterDigits);
  }

  /** `extractResidentNameFromOcrLine` */
  method ExtractResidentNameFromOcrLine(raw: string, stores: Option<seq<Store>>, monolith: bool) returns (name: string)
    ensures name == ExtractResidentName(raw, stores, monolith)
  {
    var trimmed := Trim(raw);
    if trimmed == [] { return []; }
    var cutIndex := ComputeCutIndex(trimmed, stores, monolith);
    var candidate := Trim(if cutIndex > 0 then SliceTo(trimmed, cutIndex) else trimmed);
    name := SanitizeResidentName(candidate);
    if IsUnemployedText(name) { name := []; }
  }
}
