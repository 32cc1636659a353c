/**
 * Display formatting of resident names: surrounding whitespace removed,
 * inner whitespace runs collapsed to one space, and every segment delimited
 * by a space, a hyphen or an apostrophe written with an upper-case first
 * letter and lower-case rest (ANNA-MARIE becomes Anna-Marie, O'BRIEN
 * becomes O'Brien). Case mapping is ASCII only.
 */
module ResidentName {
  import opened Strings
  import opened Seqs

  /** `toTitleCaseSegment` */
  function TitleCaseSegment(segment: string): (r: string)
    ensures |r| == |segment|
  {
    if segment == [] then segment else [UpperChar(segment[0])] + Lower(segment[1..])
  }

  /** The inner map of `toTitleCaseWord`: one hyphen-free part, split at apostrophes. */
  function TitleCasePart(part: string): string
  {
    Join(MapSeq(Split(part, '\''), TitleCaseSegment), '\'')
  }

  /** `toTitleCaseWord` */
  function TitleCaseWord(word: string): string
  {
    Join(MapSeq(Split(word, '-'), TitleCasePart), '-')
  }

  /** `name.trim().replace(/\s+/g, ' ')` */
  function Tidy(name: string): string
  {
    CollapseSpaces(Trim(name))
  }

  /** `formatResidentName` */
  function FormatResidentName(name: string): string
  {
    var trimmed := Tidy(name);
    if trimmed == [] then trimmed else Join(MapSeq(Split(trimmed, ' '), TitleCaseWord), ' ')
  }

  // ---------------------------------------------------------------------
  // Reference definition: position-wise title case
  // ---------------------------------------------------------------------

  predicate Delimiter(c: char)
  {
    c == ' ' || c == '-' || c == '\''
  }

  /** A character opening a segment is upper-cased, every other one lower-cased. */
  function TitleAt(t: string, i: nat): char
    requires i < |t|
  {
    if i == 0 || Delimiter(t[i - 1]) then UpperChar(t[i]) else LowerChar(t[i])
  }

  function TitleCased(t: string): (r: string)
    ensures |r| == |t|
  {
    seq(|t|, i requires 0 <= i < |t| => TitleAt(t, i))
  }

  /** No leading, trailing or doubled space, and no whitespace but the plain space. */
  predicate SingleSpaced(t: string)
  {
    forall i :: 0 <= i < |t| ==> (IsSpace(t[i]) ==> t[i] == ' ') && (0 < i && t[i] == ' ' ==> t[i - 1] != ' ')
  }

  predicate WellSpaced(t: string)
  {
    SingleSpaced(t) && (t == [] || (!IsSpace(t[0]) && !IsSpace(t[|t| - 1])))
  }

  // ---------------------------------------------------------------------
  // Case mapping of one character
  // ---------------------------------------------------------------------

  lemma CaseChar(c: char)
    ensures IsSpace(UpperChar(c)) == IsSpace(c) && IsSpace(LowerChar(c)) == IsSpace(c)
    ensures (UpperChar(c) == ' ') == (c == ' ') && (LowerChar(c) == ' ') == (c == ' ')
    ensures Delimiter(UpperChar(c)) == Delimiter(c) && Delimiter(LowerChar(c)) == Delimiter(c)
    ensures Delimiter(c) ==> UpperChar(c) == c && LowerChar(c) == c
    ensures UpperChar(UpperChar(c)) == UpperChar(c) && UpperChar(LowerChar(c)) == UpperChar(c)
    ensures LowerChar(LowerChar(c)) == LowerChar(c) && LowerChar(UpperChar(c)) == LowerChar(c)
  {
  }

  // ---------------------------------------------------------------------
  // The split/map/join chain computes the reference definition
  // ---------------------------------------------------------------------

  lemma TitleCasedJoin(a: string, c: char, b: string)
    requires Delimiter(c)
    ensures TitleCased(a + [c] + b) == TitleCased(a) + [c] + TitleCased(b)
  {
    var s := a + [c] + b;
    var l, r := TitleCased(s), TitleCased(a) + [c] + TitleCased(b);
    forall i | 0 <= i < |s| ensures l[i] == r[i] {
      if i < |a| {
        assert s[i] == a[i];
        if i > 0 { assert s[i - 1] == a[i - 1]; }
      } else if i == |a| {
        assert s[i] == c;
        CaseChar(c);
      } else {
        var j := i - |a| - 1;
        assert s[i] == b[j];
        if j > 0 { assert s[i - 1] == b[j - 1]; } else { assert s[i - 1] == c; }
      }
    }
  }

  lemma {:induction false} JoinMapTitle(parts: seq<string>, c: char, g: string -> string)
    requires Delimiter(c)
    requires forall k :: 0 <= k < |parts| ==> g(parts[k]) == TitleCased(parts[k])
    ensures Join(MapSeq(parts, g), c) == TitleCased(Join(parts, c))
  {
    if |parts| == 1 {
      assert MapSeq(parts, g) == [g(parts[0])];
    } else if |parts| > 1 {
      var m := MapSeq(parts, g);
      assert m[1..] == MapSeq(parts[1..], g);
      JoinMapTitle(parts[1..], c, g);
      TitleCasedJoin(parts[0], c, Join(parts[1..], c));
    }
  }

  lemma SegmentTitle(seg: string)
    requires forall i :: 0 <= i < |seg| ==> !Delimiter(seg[i])
    ensures TitleCaseSegment(seg) == TitleCased(seg)
  {
    if seg != [] {
      forall i | 0 <= i < |seg| ensures TitleCaseSegment(seg)[i] == TitleCased(seg)[i] {
        if i > 0 {
          assert seg[1..][i - 1] == seg[i];
          assert !Delimiter(seg[i - 1]);
        }
      }
    }
  }

  lemma PartTitle(part: string)
    requires forall i :: 0 <= i < |part| ==> part[i] != ' ' && part[i] != '-'
    ensures TitleCasePart(part) == TitleCased(part)
  {
    var pieces := Split(part, '\'');
    SplitChars(part, '\'');
    forall k | 0 <= k < |pieces| ensures TitleCaseSegment(pieces[k]) == TitleCased(pieces[k]) {
      forall i | 0 <= i < |pieces[k]| ensures !Delimiter(pieces[k][i]) {
        var x := pieces[k][i];
        assert x in pieces[k] && x in part;
        var j :| 0 <= j < |part| && part[j] == x;
      }
      SegmentTitle(pieces[k]);
    }
    JoinMapTitle(pieces, '\'', TitleCaseSegment);
    JoinSplit(part, '\'');
  }

  lemma WordTitle(word: string)
    requires forall i :: 0 <= i < |word| ==> word[i] != ' '
    ensures TitleCaseWord(word) == TitleCased(word)
  {
    var parts := Split(word, '-');
    SplitChars(word, '-');
    forall k | 0 <= k < |parts| ensures TitleCasePart(parts[k]) == TitleCased(parts[k]) {
      forall i | 0 <= i < |parts[k]| ensures parts[k][i] != ' ' && parts[k][i] != '-' {
        var x := parts[k][i];
        assert x in parts[k] && x in word;
        var j :| 0 <= j < |word| && word[j] == x;
      }
      PartTitle(parts[k]);
    }
    JoinMapTitle(parts, '-', TitleCasePart);
    JoinSplit(word, '-');
  }

  /**
   * The formatted name is the tidied name with each character opening a
   * segment (first, or after a space, hyphen or apostrophe) upper-cased and
   * every other character lower-cased.
   */
  lemma FormatResidentNameSpec(name: string)
    ensures FormatResidentName(name) == TitleCased(Tidy(name))
  {
    var t := Tidy(name);
    if t != [] {
      var words := Split(t, ' ');
      forall k | 0 <= k < |words| ensures TitleCaseWord(words[k]) == TitleCased(words[k]) {
        WordTitle(words[k]);
      }
      JoinMapTitle(words, ' ', TitleCaseWord);
      JoinSplit(t, ' ');
    }
  }

  // ---------------------------------------------------------------------
  // Whitespace handling
  // ---------------------------------------------------------------------

  lemma TrimEmptyIff(s: string)
    ensures Trim(s) == [] <==> AllChars(s, IsSpace)
  {
    var d := TrimStart(s);
    DropWhileAll(s, IsSpace);
    if d != [] {
      assert !IsSpace(d[0]);
      assert !IsSpace(s[|s| - |d|]);
    }
  }

  lemma SpaceCons(rd: string)
    requires SingleSpaced(rd) && (rd == [] || !IsSpace(rd[0]))
    ensures SingleSpaced(" " + rd)
  {
    var r := " " + rd;
    forall i | 0 < i < |r| ensures r[i] == rd[i - 1] { }
  }

  lemma CharCons(x: char, rt: string)
    requires SingleSpaced(rt) && !IsSpace(x)
    ensures SingleSpaced([x] + rt)
  {
    var r := [x] + rt;
    forall i | 0 < i < |r| ensures r[i] == rt[i - 1] { }
  }

  lemma {:induction false} CollapseFacts(s: string)
    ensures SingleSpaced(CollapseSpaces(s))
    ensures CollapseSpaces(s) == [] <==> s == []
    ensures s != [] && !IsSpace(s[0]) ==> CollapseSpaces(s)[0] == s[0]
    ensures s != [] && !IsSpace(s[|s| - 1]) ==> CollapseSpaces(s)[|CollapseSpaces(s)| - 1] == s[|s| - 1]
    decreases |s|
  {
    if s != [] {
      var r := CollapseSpaces(s);
      if IsSpace(s[0]) {
        var d := DropWhile(s[1..], IsSpace);
        DropWhileAll(s[1..], IsSpace);
        CollapseFacts(d);
        var rd := CollapseSpaces(d);
        assert r == " " + rd;
        SpaceCons(rd);
        if !IsSpace(s[|s| - 1]) {
          assert d != [] && d[|d| - 1] == s[|s| - 1];
        }
      } else {
        CollapseFacts(s[1..]);
        var rt := CollapseSpaces(s[1..]);
        assert r == [s[0]] + rt;
        CharCons(s[0], rt);
        if |s| > 1 {
          assert s[1..][|s| - 2] == s[|s| - 1];
        }
      }
    }
  }

  lemma {:induction false} CollapseFixed(t: string)
    requires SingleSpaced(t)
    ensures CollapseSpaces(t) == t
  {
    if t != [] {
      var rest := t[1..];
      assert SingleSpaced(rest) by {
        forall i | 0 <= i < |rest| ensures rest[i] == t[i + 1] { }
      }
      CollapseFixed(rest);
      if IsSpace(t[0]) {
        assert rest != [] ==> !IsSpace(rest[0]) by {
          if rest != [] { assert rest[0] == t[1]; }
        }
        assert DropWhile(rest, IsSpace) == rest;
      }
    }
  }

  /** The tidied name is trimmed and single-spaced. */
  lemma TidyWellSpaced(name: string)
    ensures WellSpaced(Tidy(name))
  {
    CollapseFacts(Trim(name));
  }

  /** A trimmed, single-spaced name is left as it is by tidying. */
  lemma TidyFixed(t: string)
    requires WellSpaced(t)
    ensures Tidy(t) == t
  {
    assert TrimStart(t) == t;
    assert TrimEnd(t) == t;
    CollapseFixed(t);
  }

  // ---------------------------------------------------------------------
  // Properties of the formatted name
  // ---------------------------------------------------------------------

  /** Only whitespace (or nothing) formats to the empty name. */
  lemma FormatEmptyIff(name: string)
    ensures FormatResidentName(name) == [] <==> AllChars(name, IsSpace)
  {
    FormatResidentNameSpec(name);
    TrimEmptyIff(name);
    CollapseFacts(Trim(name));
  }

  lemma TitleCasedShape(t: string)
    ensures forall i :: 0 <= i < |t| ==> IsSpace(TitleCased(t)[i]) == IsSpace(t[i])
    ensures forall i :: 0 <= i < |t| ==> (TitleCased(t)[i] == ' ') == (t[i] == ' ')
    ensures forall i :: 0 <= i < |t| ==> Delimiter(TitleCased(t)[i]) == Delimiter(t[i])
    ensures forall i :: 0 <= i < |t| ==> LowerChar(TitleCased(t)[i]) == LowerChar(t[i])
  {
    forall i | 0 <= i < |t| {
      CaseChar(t[i]);
    }
  }

  /** The formatted name is trimmed and single-spaced. */
  lemma FormatWellSpaced(name: string)
    ensures WellSpaced(FormatResidentName(name))
  {
    FormatResidentNameSpec(name);
    var t := Tidy(name);
    TidyWellSpaced(name);
    TitleCasedShape(t);
  }

  /** Formatting only changes letter case: same length, same letters ignoring case. */
  lemma FormatCaseOnly(name: string)
    ensures |FormatResidentName(name)| == |Tidy(name)|
    ensures Lower(FormatResidentName(name)) == Lower(Tidy(name))
  {
    FormatResidentNameSpec(name);
    TitleCasedShape(Tidy(name));
  }

  lemma TitleCasedIdempotent(t: string)
    ensures TitleCased(TitleCased(t)) == TitleCased(t)
  {
    var f := TitleCased(t);
    forall i | 0 <= i < |t| ensures TitleCased(f)[i] == f[i] {
      CaseChar(t[i]);
      if i > 0 {
        CaseChar(t[i - 1]);
      }
    }
  }

  /** Formatting an already formatted name changes nothing. */
  lemma FormatIdempotent(name: string)
    ensures FormatResidentName(FormatResidentName(name)) == FormatResidentName(name)
  {
    var f := FormatResidentName(name);
    FormatWellSpaced(name);
    TidyFixed(f);
    FormatResidentNameSpec(f);
    FormatResidentNameSpec(name);
    TitleCasedIdempotent(Tidy(name));
  }

  /** A name without whitespace is only title-cased. */
  lemma FormatNoSpace(t: string)
    requires forall i :: 0 <= i < |t| ==> !IsSpace(t[i])
    ensures FormatResidentName(t) == TitleCased(t)
  {
    TidyFixed(t);
    FormatResidentNameSpec(t);
  }

  lemma HyphenatedLetters()
    ensures forall i :: 0 <= i < |"ANNA-MARIE"| ==> !IsSpace("ANNA-MARIE"[i])
    ensures TitleCased("ANNA-MARIE") == "Anna-Marie"
  {
  }

  /** A double-barrelled name: each part is capitalised. */
  lemma FormatHyphenated()
    ensures FormatResidentName("ANNA-MARIE") == "Anna-Marie"
  {
    HyphenatedLetters();
    FormatNoSpace("ANNA-MARIE");
  }

  lemma ApostropheLetters()
    ensures forall i :: 0 <= i < |"O'BRIEN"| ==> !IsSpace("O'BRIEN"[i])
    ensures TitleCased("O'BRIEN") == "O'Brien"
  {
  }

  /** An apostrophe opens a segment. */
  lemma FormatApostrophe()
    ensures FormatResidentName("O'BRIEN") == "O'Brien"
  {
    ApostropheLetters();
    FormatNoSpace("O'BRIEN");
  }
}
