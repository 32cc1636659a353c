/**
 * The text helpers of the older single-file extractor (`extract.ts`): its
 * match key, its unemployed and noise tests, and its name check. Its key
 * leaves out the apostrophe replacement and the final space collapse of the
 * modular key, yet computes the same string (`NormalizeAgrees`), so the
 * rest of the older pipeline uses `TextUtils.NormalizeForMatch`,
 * `TextUtils.NormalizeNoSpace` and `TextUtils.SimilarityNoSpace`.
 */
module LegacyText {
  import opened Strings
  import opened TextUtils

  /** `normalize`: lower-case, every non-`[a-z0-9]` run becomes one space, trimmed. */
  function Normalize(s: string): string
  {
    Trim(ReplaceRuns(Lower(s), NotLowerAlnum, " "))
  }

  /** `a` and `b` agree on `p` everywhere and agree outright outside it. */
  predicate Alike(a: string, b: string, p: char -> bool)
  {
    |a| == |b| && forall i :: 0 <= i < |a| ==> p(a[i]) == p(b[i]) && (!p(a[i]) ==> a[i] == b[i])
  }

  lemma AlikeSuffix(a: string, b: string, p: char -> bool, k: nat)
    requires Alike(a, b, p) && k <= |a|
    ensures Alike(a[k..], b[k..], p)
  {
    assert forall i :: 0 <= i < |a| - k ==> a[k..][i] == a[k + i] && b[k..][i] == b[k + i];
  }

  /** Skipping a `p`-prefix of two alike strings skips the same number of characters. */
  lemma {:induction false} DropWhileAlike(a: string, b: string, p: char -> bool)
    requires Alike(a, b, p)
    ensures |DropWhile(a, p)| == |DropWhile(b, p)|
  {
    if a != [] && p(a[0]) {
      AlikeSuffix(a, b, p, 1);
      DropWhileAlike(a[1..], b[1..], p);
    }
  }

  /** Replacing `p`-runs gives the same result on two alike strings. */
  lemma {:induction false} ReplaceRunsAlike(a: string, b: string, p: char -> bool, rep: string)
    requires Alike(a, b, p)
    ensures ReplaceRuns(a, p, rep) == ReplaceRuns(b, p, rep)
    decreases |a|
  {
    if a != [] {
      AlikeSuffix(a, b, p, 1);
      if p(a[0]) {
        DropWhileAlike(a[1..], b[1..], p);
        var n := |DropWhile(a[1..], p)|;
        AlikeSuffix(a, b, p, |a| - n);
        assert DropWhile(a[1..], p) == a[|a| - n..] && DropWhile(b[1..], p) == b[|b| - n..];
        ReplaceRunsAlike(a[|a| - n..], b[|b| - n..], p, rep);
      } else {
        ReplaceRunsAlike(a[1..], b[1..], p, rep);
      }
    }
  }

  /** The older key is the modular one: straightening `’` and collapsing spaces change nothing here. */
  lemma NormalizeAgrees(s: string)
    ensures Normalize(s) == NormalizeForMatch(s)
    ensures RemoveAll(Normalize(s), IsSpace) == NormalizeNoSpace(s)
  {
    var lower := Lower(s);
    var straight := StraightenApostrophes(lower);
    assert Alike(straight, lower, NotLowerAlnum);
    ReplaceRunsAlike(straight, lower, NotLowerAlnum, " ");
    var replaced := ReplaceRuns(lower, NotLowerAlnum, " ");
    ReplaceRunsChars(lower, NotLowerAlnum, ' ');
    ReplaceRunsSingle(lower, NotLowerAlnum, ' ');
    TrimShape(replaced);
    CanonicalCollapse(Trim(replaced));
  }

  /** `isUnemployed`: narrower than the modular test, with no "employ" and no similarity clause. */
  predicate IsUnemployed(text: string)
  {
    var t := NormalizeNoSpace(text);
    t == "unemployed" || Contains(t, "unemploy") || Contains(t, "nemploy")
  }

  /** Text the older test calls unemployed is unemployed-like for the modular test too. */
  lemma UnemployedNarrower(text: string)
    ensures IsUnemployed(text) ==> IsUnemployedText(text)
    ensures NormalizeNoSpace(text) == [] ==> !IsUnemployed(text)
  {
    var t := NormalizeNoSpace(text);
    if t == [] {
      ContainsLonger(t, "unemploy");
      ContainsLonger(t, "nemploy");
    }
  }

  /** `isNoise` */
  predicate IsNoise(text: string)
  {
    var t := Normalize(text);
    t == [] || Contains(t, "dream job") || t == "job" || AllDigitsOrSpace(t)
  }

  /** `[^a-zA-Z\s'-]` does not match these. */
  predicate IsLegacyNameChar(c: char) { IsAsciiLetter(c) || IsSpace(c) || c == '\'' || c == '-' }
  predicate NotLegacyNameChar(c: char) { !IsLegacyNameChar(c) }

  /**
   * `isValidName`. The `\s+\d+$` strip between the character filter and the
   * trim can match nothing, since no digit survives the filter, and it is
   * left out; so is the digit test, for the same reason.
   */
  predicate IsValidName(text: string)
  {
    var cleaned := Trim(RemoveAll(text, NotLegacyNameChar));
    cleaned != [] && |cleaned| >= 3 && !IsUnemployed(cleaned) && (' ' in cleaned || |cleaned| >= 6)
  }

  /** A text made only of name characters, trimmed and with single spaces, passes the filter unchanged. */
  lemma ValidNameOfClean(s: string)
    requires forall i :: 0 <= i < |s| ==> IsAsciiLetter(s[i]) || s[i] == ' ' || s[i] == '\'' || s[i] == '-'
    requires s != [] ==> s[0] != ' ' && s[|s| - 1] != ' '
    ensures IsValidName(s) <==> |s| >= 3 && !IsUnemployed(s) && (' ' in s || |s| >= 6)
  {
    RemoveAllIdentity(s, NotLegacyNameChar);
    TrimIdentity(s);
  }

  // ---------------------------------------------------------------------
  // pickName's cleaning chain
  // ---------------------------------------------------------------------

  /**
   * `replace(/\s+\d{3,}\s*$/, '')`: the match starts at the whitespace run
   * just before the final digit run, so what precedes that run is kept.
   */
  function DropNumericId(s: string): (r: string)
    ensures |r| <= |s|
  {
    var t := TrimEnd(s);
    if HasNumericIdSuffix(t) then TrimEnd(t[..|t| - TrailingDigits(t)]) else s
  }

  /** `replace(/[^a-zA-Z\s'-]/g, ' ')`: each other character becomes a space. */
  function BlankOthers(s: string): (r: string)
    ensures |r| == |s|
    ensures forall i :: 0 <= i < |r| ==> IsLegacyNameChar(r[i])
  {
    seq(|s|, i requires 0 <= i < |s| => if IsLegacyNameChar(s[i]) then s[i] else ' ')
  }

  /** The text `pickName` tests: id dropped, other characters blanked, spaces collapsed, trimmed. */
  function CleanName(text: string): (r: string)
    ensures forall i :: 0 <= i < |r| ==> IsAsciiLetter(r[i]) || r[i] == ' ' || r[i] == '\'' || r[i] == '-'
    ensures NoDoubleSpace(r) && (r != [] ==> r[0] != ' ' && r[|r| - 1] != ' ')
  {
    var blanked := BlankOthers(DropNumericId(text));
    var collapsed := CollapseSpaces(blanked);
    CleanShape(blanked);
    Trim(collapsed)
  }

  lemma CleanShape(blanked: string)
    requires forall i :: 0 <= i < |blanked| ==> IsLegacyNameChar(blanked[i])
    ensures var r := Trim(CollapseSpaces(blanked));
      (forall i :: 0 <= i < |r| ==> IsAsciiLetter(r[i]) || r[i] == ' ' || r[i] == '\'' || r[i] == '-')
      && NoDoubleSpace(r) && (r != [] ==> r[0] != ' ' && r[|r| - 1] != ' ')
  {
    var collapsed := CollapseSpaces(blanked);
    ReplaceRunsChars(blanked, IsSpace, ' ');
    ReplaceRunsSingle(blanked, IsSpace, ' ');
    TrimShape(collapsed);
    var r := Trim(collapsed);
    forall i | 0 <= i < |r| ensures IsAsciiLetter(r[i]) || r[i] == ' ' || r[i] == '\'' || r[i] == '-' {
      assert r[i] in r && r[i] in collapsed;
      if r[i] != ' ' {
        var j :| 0 <= j < |blanked| && blanked[j] == r[i];
      }
    }
  }

  /** A cleaned text that is a valid name has at least three characters. */
  lemma CleanNameLength(text: string)
    ensures IsValidName(CleanName(text)) ==> |CleanName(text)| >= 3
  {
    ValidNameOfClean(CleanName(text));
  }
}
