/**
 * The vertical-pair extractor: in the left part of the page, a name-like
 * line followed within 80 pixels by a store-like line makes one candidate.
 */
module VerticalPair {
  import opened Wrappers
  import opened Seqs
  import opened Strings
  import opened Sorting
  import opened Types
  import opened ImportTypes
  import opened TextUtils
  import opened StoreMatching
  import opened Layout
  import opened LineFilters

  /**
   * `pendingName`: an extracted name and the y0 of its line, together with
   * the name's sanitized form, which the pairing uses.
   */
  datatype PendingName = PendingName(text: string, sanitized: string, y0: int)

  /** The scan's variables: the pending name and the candidates so far. */
  datatype Scan = Scan(pending: Option<PendingName>, out: seq<Candidate>)

  /** The largest vertical gap between a name and its dream job. */
  const MaxVerticalGap := 80

  /** A name line is skipped when it matches a store at this confidence or more. */
  const StoreLikeNameConfidence := 0.92

  /** `l.bbox.x0 < inferredWidth * 0.6` */
  predicate IsLeft(l: OcrLine, inferredWidth: int)
  {
    (l.bbox.x0 as real) < (inferredWidth as real) * 0.6
  }

  /** The lines scanned: not header or noise, in the left 60 percent, stably sorted by y0. */
  function LeftLines(lines: seq<OcrLine>, inferredWidth: int): seq<OcrLine>
  {
    SortBy(Filter(Filter(lines, NotHeader), l => IsLeft(l, inferredWidth)), Y0)
  }

  /** The name a line offers: its extracted name, when that looks like a name. */
  function NameOf(raw: string, stores: seq<Store>): Option<string>
  {
    var extracted := ExtractResidentName(raw, Some(stores), false);
    if extracted != [] && IsLikelyName(extracted) then Some(extracted) else None
  }

  /** A name that matches a store with an id at 0.92 or more. */
  predicate StoreLikeName(name: string, stores: seq<Store>)
  {
    var m := MatchStore(name, stores);
    Truthy(m.storeId) && m.confidence >= StoreLikeNameConfidence
  }

  /** The candidate pairing the pending name with a store-like line. */
  function PairCandidate(pendingText: string, name: string, raw: string, m: StoreMatch, sourceFileName: string): Candidate
  {
    Candidate(
      nameRaw := pendingText,
      currentJobRaw := None,
      dreamJobRaw := raw,
      name := name,
      currentJobStoreId := None,
      dreamJobStoreId := m.storeId,
      matchedCurrentStoreName := None,
      matchedStoreName := m.storeName,
      currentMatchConfidence := None,
      matchConfidence := m.confidence,
      selected := name != [] && Truthy(m.storeId) && m.confidence >= AutoSelectMinConfidence,
      issues := (if name == [] then [NameUnparsed] else [])
                + (if raw == [] then [DreamUnparsed] else [])
                + (if !Truthy(m.storeId) then [DreamUnmatched] else []),
      sourceFileName := sourceFileName)
  }

  /**
   * What one scanned line offers the scan: its trimmed text and y0, the name
   * it holds, whether that name is store-like, whether the text is
   * store-like, and the text's store match.
   */
  datatype LineView = LineView(raw: string, y0: int, name: Option<string>, sanitized: string, storeLikeName: bool,
                               storeLine: bool, storeMatch: StoreMatch)

  function View(line: OcrLine, stores: seq<Store>): LineView
  {
    var raw := Trim(line.text);
    var name := NameOf(raw, stores);
    LineView(raw, line.bbox.y0, name, if name.Some? then SanitizeResidentName(name.value) else [],
             name.Some? && StoreLikeName(name.value, stores),
             IsLikelyStoreName(raw), MatchStore(raw, stores))
  }

  /** One iteration of the scan loop. */
  function Step(s: Scan, v: LineView, sourceFileName: string): Scan
  {
    if v.raw == [] then s
    else if s.pending.None? then
      if v.name.Some? && !v.storeLikeName then Scan(Some(PendingName(v.name.value, v.sanitized, v.y0)), s.out)
      else s
    else
      var verticalGap := v.y0 - s.pending.value.y0;
      if verticalGap < 0 then Scan(None, s.out)
      else if verticalGap > MaxVerticalGap then
        Scan(if v.name.Some? then Some(PendingName(v.name.value, v.sanitized, v.y0)) else None, s.out)
      else if !v.storeLine then s
      else Scan(None, s.out + [PairCandidate(s.pending.value.text, s.pending.value.sanitized, v.raw, v.storeMatch, sourceFileName)])
  }

  /** The scan over the views of the lines, from an empty start. */
  function Run(views: seq<LineView>, sourceFileName: string): Scan
  {
    if views == [] then Scan(None, [])
    else
      var n := |views| - 1;
      Step(Run(views[..n], sourceFileName), views[n], sourceFileName)
  }

  function Views(lines: seq<OcrLine>, stores: seq<Store>): seq<LineView>
  {
    MapSeq(lines, l => View(l, stores))
  }

  /** `extractCandidatesVerticalPair`, as a function of its inputs. */
  function VerticalPairCandidates(lines: seq<OcrLine>, inferredWidth: int, stores: seq<Store>, sourceFileName: string): seq<Candidate>
  {
    Run(Views(LeftLines(lines, inferredWidth), stores), sourceFileName).out
  }

  lemma RunSnoc(views: seq<LineView>, i: nat, sourceFileName: string)
    requires i < |views|
    ensures Run(views[..i + 1], sourceFileName) == Step(Run(views[..i], sourceFileName), views[i], sourceFileName)
  {
    assert views[..i + 1][..i] == views[..i];
  }

  /** What `View` says of a non-blank line with trimmed text `raw` and top `y0`. */
  ghost predicate ViewOf(v: LineView, raw: string, y0: int, stores: seq<Store>)
  {
    v.raw == raw && v.y0 == y0 && v.name == NameOf(raw, stores)
    && (v.name.Some? ==> v.storeLikeName == StoreLikeName(v.name.value, stores) && v.sanitized == SanitizeResidentName(v.name.value))
    && v.storeLine == IsLikelyStoreName(raw) && v.storeMatch == MatchStore(raw, stores)
  }

  /** A line read while no name is pending: it may become the pending name. */
  method ScanIdle(out: seq<Candidate>, raw: string, line: OcrLine, stores: seq<Store>, sourceFileName: string, ghost v: LineView)
    returns (pendingName': Option<PendingName>)
    requires raw != [] && ViewOf(v, raw, line.bbox.y0, stores)
    ensures Scan(pendingName', out) == Step(Scan(None, out), v, sourceFileName)
  {
    var extracted := NameOf(raw, stores);
    pendingName' := None;
    if extracted.Some? {
      if StoreLikeName(extracted.value, stores) {
        return;
      }
      pendingName' := Some(PendingName(extracted.value, SanitizeResidentName(extracted.value), line.bbox.y0));
    }
  }

  /** A line read while a name is pending: it may pair with it, replace it or clear it. */
  method ScanPending(pending: PendingName, out: seq<Candidate>, raw: string, line: OcrLine, stores: seq<Store>, sourceFileName: string,
                     ghost v: LineView)
    returns (pendingName': Option<PendingName>, out': seq<Candidate>)
    requires raw != [] && ViewOf(v, raw, line.bbox.y0, stores)
    ensures Scan(pendingName', out') == Step(Scan(Some(pending), out), v, sourceFileName)
  {
    var verticalGap := line.bbox.y0 - pending.y0;
    StepPending(pending, out, v, sourceFileName);
    if verticalGap < 0 {
      pendingName', out' := None, out;
    } else if verticalGap > MaxVerticalGap {
      pendingName' := RestartPending(raw, line, stores, v);
      out' := out;
    } else {
      pendingName', out' := PairLine(pending, out, raw, line, stores, sourceFileName, v);
    }
  }

  /** `Step` with a name pending, on a non-blank line. */
  lemma StepPending(pending: PendingName, out: seq<Candidate>, v: LineView, sourceFileName: string)
    requires v.raw != []
    ensures var gap := v.y0 - pending.y0;
            Step(Scan(Some(pending), out), v, sourceFileName)
            == if gap < 0 then Scan(None, out)
               else if gap > MaxVerticalGap then Scan(if v.name.Some? then Some(PendingName(v.name.value, v.sanitized, v.y0)) else None, out)
               else if !v.storeLine then Scan(Some(pending), out)
               else Scan(None, out + [PairCandidate(pending.text, pending.sanitized, v.raw, v.storeMatch, sourceFileName)])
  {
  }

  /** A line more than `MaxVerticalGap` below the pending name: its name, if any, becomes the pending one. */
  method RestartPending(raw: string, line: OcrLine, stores: seq<Store>, ghost v: LineView) returns (pendingName': Option<PendingName>)
    requires ViewOf(v, raw, line.bbox.y0, stores)
    ensures pendingName' == if v.name.Some? then Some(PendingName(v.name.value, v.sanitized, v.y0)) else None
  {
    var extracted := NameOf(raw, stores);
    pendingName' := if extracted.Some? then Some(PendingName(extracted.value, SanitizeResidentName(extracted.value), line.bbox.y0)) else None;
  }

  /** A line close enough below the pending name: a store-like one pairs with it. */
  method PairLine(pending: PendingName, out: seq<Candidate>, raw: string, line: OcrLine, stores: seq<Store>, sourceFileName: string,
                  ghost v: LineView)
    returns (pendingName': Option<PendingName>, out': seq<Candidate>)
    requires ViewOf(v, raw, line.bbox.y0, stores)
    ensures Scan(pendingName', out') == if !v.storeLine then Scan(Some(pending), out)
                                        else Scan(None, out + [PairCandidate(pending.text, pending.sanitized, v.raw, v.storeMatch, sourceFileName)])
  {
    pendingName', out' := Some(pending), out;
    if !IsLikelyStoreName(raw) {
      return;
    }
    var m := MatchStore(raw, stores);
    out' := out + [PairCandidate(pending.text, pending.sanitized, raw, m, sourceFileName)];
    pendingName' := None;
  }

  /** One pass of the scan loop's body. */
  method ScanLine(pendingName: Option<PendingName>, out: seq<Candidate>, line: OcrLine, stores: seq<Store>, sourceFileName: string)
    returns (pendingName': Option<PendingName>, out': seq<Candidate>)
    ensures Scan(pendingName', out') == Step(Scan(pendingName, out), View(line, stores), sourceFileName)
  {
    pendingName', out' := pendingName, out;
    var raw := Trim(line.text);
    ghost var v := View(line, stores);
    if raw == [] {
      assert v.raw == [];
      return;
    }
    assert ViewOf(v, raw, line.bbox.y0, stores);
    if pendingName.None? {
      pendingName' := ScanIdle(out, raw, line, stores, sourceFileName, v);
    } else {
      pendingName', out' := ScanPending(pendingName.value, out, raw, line, stores, sourceFileName, v);
    }
  }

  /** `extractCandidatesVerticalPair` */
  method ExtractCandidatesVerticalPair(lines: seq<OcrLine>, inferredWidth: int, stores: seq<Store>, sourceFileName: string)
    returns (out: seq<Candidate>)
    ensures out == VerticalPairCandidates(lines, inferredWidth, stores, sourceFileName)
  {
    var leftLines := SortBy(Filter(Filter(lines, NotHeader), l => IsLeft(l, inferredWidth)), Y0);
    out := ScanLines(leftLines, stores, sourceFileName);
  }

  /** The line loop, driving `pendingName`. */
  method ScanLines(leftLines: seq<OcrLine>, stores: seq<Store>, sourceFileName: string) returns (out: seq<Candidate>)
    ensures out == Run(Views(leftLines, stores), sourceFileName).out
  {
    out := [];
    var pendingName: Option<PendingName> := None;
    for i := 0 to |leftLines|
      invariant Scan(pendingName, out) == Run(Views(leftLines[..i], stores), sourceFileName)
    {
      RunLinesSnoc(leftLines, i, stores, sourceFileName);
      pendingName, out := ScanLine(pendingName, out, leftLines[i], stores, sourceFileName);
    }
    assert leftLines[..|leftLines|] == leftLines;
  }

  lemma RunLinesSnoc(lines: seq<OcrLine>, i: nat, stores: seq<Store>, sourceFileName: string)
    requires i < |lines|
    ensures Run(Views(lines[..i + 1], stores), sourceFileName)
            == Step(Run(Views(lines[..i], stores), sourceFileName), View(lines[i], stores), sourceFileName)
  {
    var views := Views(lines[..i + 1], stores);
    assert views[..i] == Views(lines[..i], stores);
    assert views[i] == View(lines[i], stores);
  }

  // ---------------------------------------------------------------------
  // Properties
  // ---------------------------------------------------------------------

  /** The scanned lines are exactly the non-header left lines, sorted by y0, equal y0 in input order. */
  lemma LeftLinesSpec(lines: seq<OcrLine>, inferredWidth: int)
    ensures forall l :: l in LeftLines(lines, inferredWidth) <==> l in lines && NotHeader(l) && IsLeft(l, inferredWidth)
    ensures SortedBy(LeftLines(lines, inferredWidth), Y0)
    ensures forall y :: WithKey(LeftLines(lines, inferredWidth), Y0, y)
                     == WithKey(Filter(Filter(lines, NotHeader), l => IsLeft(l, inferredWidth)), Y0, y)
  {
    var kept := Filter(Filter(lines, NotHeader), l => IsLeft(l, inferredWidth));
    forall l ensures l in LeftLines(lines, inferredWidth) <==> l in lines && NotHeader(l) && IsLeft(l, inferredWidth) {
      assert l in LeftLines(lines, inferredWidth) <==> l in multiset(kept);
      FilterMembers(Filter(lines, NotHeader), l => IsLeft(l, inferredWidth), l);
      FilterMembers(lines, NotHeader, l);
    }
    SortByIsSorted(kept, Y0);
    forall y ensures WithKey(LeftLines(lines, inferredWidth), Y0, y) == WithKey(kept, Y0, y) {
      SortByIsStable(kept, Y0, y);
    }
  }

  /** The facts every view carries: a likely name, a non-empty store-like text, a bounded match. */
  ghost predicate ViewOk(v: LineView)
  {
    (v.name.Some? ==> IsLikelyName(v.name.value) && v.sanitized == SanitizeResidentName(v.name.value))
    && (v.storeLine ==> IsLikelyStoreName(v.raw))
    && 0.0 <= v.storeMatch.confidence <= 1.0
  }

  lemma ViewSpec(line: OcrLine, stores: seq<Store>)
    ensures ViewOk(View(line, stores))
    ensures View(line, stores).raw == Trim(line.text) && View(line, stores).y0 == line.bbox.y0
    ensures View(line, stores).storeLine <==> IsLikelyStoreName(Trim(line.text))
    ensures View(line, stores).name.Some? <==>
              var e := ExtractResidentName(Trim(line.text), Some(stores), false); e != [] && IsLikelyName(e)
    ensures View(line, stores).storeLikeName ==> StoreLikeName(View(line, stores).name.value, stores)
  {
  }

  /** A line starts a pending name when none is pending: a likely name that is not store-like. */
  lemma StartPendingSpec(s: Scan, v: LineView, sourceFileName: string)
    requires s.pending.None? && v.raw != []
    ensures Step(s, v, sourceFileName).out == s.out
    ensures Step(s, v, sourceFileName).pending.Some? <==> v.name.Some? && !v.storeLikeName
    ensures Step(s, v, sourceFileName).pending.Some? ==> Step(s, v, sourceFileName).pending.value == PendingName(v.name.value, v.sanitized, v.y0)
  {
  }

  /** A line more than 80 below the pending name restarts it, without the store-likeness check. */
  lemma RestartPendingSpec(s: Scan, v: LineView, sourceFileName: string)
    requires s.pending.Some? && v.raw != [] && v.y0 - s.pending.value.y0 > MaxVerticalGap
    ensures Step(s, v, sourceFileName).out == s.out
    ensures Step(s, v, sourceFileName).pending.Some? <==> v.name.Some?
    ensures Step(s, v, sourceFileName).pending.Some? ==> Step(s, v, sourceFileName).pending.value == PendingName(v.name.value, v.sanitized, v.y0)
  {
  }

  /**
   * A candidate is emitted exactly when a name is pending and a store-like
   * line lies 0 to 80 below it; it pairs the two and clears the pending name.
   */
  lemma PairSpec(s: Scan, v: LineView, sourceFileName: string)
    ensures |Step(s, v, sourceFileName).out| == |s.out| + 1 <==>
              s.pending.Some? && 0 <= v.y0 - s.pending.value.y0 <= MaxVerticalGap && v.raw != [] && v.storeLine
    ensures |Step(s, v, sourceFileName).out| != |s.out| + 1 ==> Step(s, v, sourceFileName).out == s.out
    ensures |Step(s, v, sourceFileName).out| == |s.out| + 1 ==>
              Step(s, v, sourceFileName).out == s.out + [PairCandidate(s.pending.value.text, s.pending.value.sanitized, v.raw, v.storeMatch, sourceFileName)]
              && Step(s, v, sourceFileName).pending.None?
  {
  }

  /** A pending name is the name of an earlier line, whose y0 it keeps. */
  ghost predicate PendingFrom(p: Option<PendingName>, views: seq<LineView>)
  {
    p.Some? ==> exists j :: 0 <= j < |views| && views[j].name == Some(p.value.text) && views[j].sanitized == p.value.sanitized
                           && views[j].y0 == p.value.y0
  }

  lemma StepPendingFrom(s: Scan, views: seq<LineView>, i: nat, sourceFileName: string)
    requires i < |views| && PendingFrom(s.pending, views[..i])
    ensures PendingFrom(Step(s, views[i], sourceFileName).pending, views[..i + 1])
  {
    var p := Step(s, views[i], sourceFileName).pending;
    if p.Some? {
      if p == s.pending {
        var j :| 0 <= j < i && views[..i][j].name == Some(s.pending.value.text) && views[..i][j].sanitized == s.pending.value.sanitized
                  && views[..i][j].y0 == s.pending.value.y0;
        assert views[..i + 1][j] == views[..i][j];
      } else {
        assert views[..i + 1][i] == views[i];
      }
    }
  }

  /** A candidate pairs the name of one line with the store-like text of a later line. */
  ghost predicate PairedFrom(c: Candidate, views: seq<LineView>, sourceFileName: string)
  {
    exists j, k :: 0 <= j < k < |views| && views[j].name == Some(c.nameRaw)
                && views[k].raw != [] && views[k].storeLine
                && c == PairCandidate(c.nameRaw, views[j].sanitized, views[k].raw, views[k].storeMatch, sourceFileName)
  }

  lemma PairedAt(c: Candidate, views: seq<LineView>, j: nat, k: nat, sourceFileName: string)
    requires j < k < |views| && views[j].name == Some(c.nameRaw) && views[k].raw != [] && views[k].storeLine
    requires c == PairCandidate(c.nameRaw, views[j].sanitized, views[k].raw, views[k].storeMatch, sourceFileName)
    ensures PairedFrom(c, views, sourceFileName)
  {
  }

  ghost predicate AllPaired(out: seq<Candidate>, views: seq<LineView>, sourceFileName: string)
  {
    forall c :: c in out ==> PairedFrom(c, views, sourceFileName)
  }

  lemma PairedFromExtend(c: Candidate, views: seq<LineView>, n: nat, sourceFileName: string)
    requires n <= |views| && PairedFrom(c, views[..n], sourceFileName)
    ensures PairedFrom(c, views, sourceFileName)
  {
    var j, k :| 0 <= j < k < n && views[..n][j].name == Some(c.nameRaw)
                && views[..n][k].raw != [] && views[..n][k].storeLine
                && c == PairCandidate(c.nameRaw, views[..n][j].sanitized, views[..n][k].raw, views[..n][k].storeMatch, sourceFileName);
    assert views[..n][j] == views[j] && views[..n][k] == views[k];
    PairedAt(c, views, j, k, sourceFileName);
  }

  lemma AllPairedExtend(out: seq<Candidate>, views: seq<LineView>, n: nat, sourceFileName: string)
    requires n < |views| && AllPaired(out, views[..n], sourceFileName)
    ensures AllPaired(out, views[..n + 1], sourceFileName)
  {
    forall c | c in out ensures PairedFrom(c, views[..n + 1], sourceFileName) {
      assert views[..n + 1][..n] == views[..n];
      PairedFromExtend(c, views[..n + 1], n, sourceFileName);
    }
  }

  lemma StepPaired(s: Scan, views: seq<LineView>, n: nat, sourceFileName: string)
    requires n < |views| && PendingFrom(s.pending, views[..n]) && AllPaired(s.out, views[..n], sourceFileName)
    ensures AllPaired(Step(s, views[n], sourceFileName).out, views[..n + 1], sourceFileName)
  {
    var out := Step(s, views[n], sourceFileName).out;
    PairSpec(s, views[n], sourceFileName);
    AllPairedExtend(s.out, views, n, sourceFileName);
    if out != s.out {
      var v := views[n];
      var c := PairCandidate(s.pending.value.text, s.pending.value.sanitized, v.raw, v.storeMatch, sourceFileName);
      assert out == s.out + [c];
      var j :| 0 <= j < n && views[..n][j].name == Some(s.pending.value.text) && views[..n][j].sanitized == s.pending.value.sanitized
                  && views[..n][j].y0 == s.pending.value.y0;
      assert views[..n + 1][j] == views[..n][j] && views[..n + 1][n] == v;
      PairedAt(c, views[..n + 1], j, n, sourceFileName);
    }
  }

  /**
   * What the scan keeps: the pending name comes from an earlier line, every
   * candidate pairs a name line with a later store line, and two lines are
   * used per candidate.
   */
  lemma {:induction false} RunInvariant(views: seq<LineView>, sourceFileName: string)
    ensures PendingFrom(Run(views, sourceFileName).pending, views)
    ensures AllPaired(Run(views, sourceFileName).out, views, sourceFileName)
    ensures 2 * |Run(views, sourceFileName).out| + (if Run(views, sourceFileName).pending.Some? then 1 else 0) <= |views|
  {
    if views != [] {
      var n := |views| - 1;
      RunInvariant(views[..n], sourceFileName);
      StepPendingFrom(Run(views[..n], sourceFileName), views, n, sourceFileName);
      StepPaired(Run(views[..n], sourceFileName), views, n, sourceFileName);
      assert views[..n + 1] == views;
      PairSpec(Run(views[..n], sourceFileName), views[n], sourceFileName);
    }
  }

  lemma LeftLinesSorted(lines: seq<OcrLine>, inferredWidth: int)
    ensures SortedBy(LeftLines(lines, inferredWidth), Y0)
  {
    SortByIsSorted(Filter(Filter(lines, NotHeader), l => IsLeft(l, inferredWidth)), Y0);
  }

  lemma ViewsY0(lines: seq<OcrLine>, stores: seq<Store>)
    ensures forall k :: 0 <= k < |lines| ==> Views(lines, stores)[k].y0 == lines[k].bbox.y0
  {
    forall k | 0 <= k < |lines| ensures Views(lines, stores)[k].y0 == lines[k].bbox.y0 {
      ViewSpec(lines[k], stores);
    }
  }

  /**
   * On sorted lines the pending name never lies below the current line, so
   * the negative-gap branch of the scan is never taken.
   */
  lemma NegativeGapUnreachable(lines: seq<OcrLine>, inferredWidth: int, stores: seq<Store>, sourceFileName: string, i: nat)
    requires i < |LeftLines(lines, inferredWidth)|
    ensures var s := Run(Views(LeftLines(lines, inferredWidth), stores)[..i], sourceFileName);
            s.pending.Some? ==> s.pending.value.y0 <= LeftLines(lines, inferredWidth)[i].bbox.y0
  {
    var left := LeftLines(lines, inferredWidth);
    var views := Views(left, stores);
    LeftLinesSorted(lines, inferredWidth);
    ViewsY0(left, stores);
    assert forall j, k :: 0 <= j < k < |views| ==> views[j].y0 <= views[k].y0;
    PendingNotBelow(views, i, sourceFileName);
  }

  /** Over lines in y0 order the pending name was seen on an earlier line, so it is not below the current one. */
  lemma PendingNotBelow(views: seq<LineView>, i: nat, sourceFileName: string)
    requires i < |views| && forall j, k :: 0 <= j < k < |views| ==> views[j].y0 <= views[k].y0
    ensures Run(views[..i], sourceFileName).pending.Some? ==> Run(views[..i], sourceFileName).pending.value.y0 <= views[i].y0
  {
    var s := Run(views[..i], sourceFileName);
    RunInvariant(views[..i], sourceFileName);
    if s.pending.Some? {
      var j :| 0 <= j < i && views[..i][j].name == Some(s.pending.value.text) && views[..i][j].sanitized == s.pending.value.sanitized
                  && views[..i][j].y0 == s.pending.value.y0;
      assert views[..i][j] == views[j];
    }
  }

  /** A vertical-pair candidate's name: a likely name, sanitized. */
  ghost predicate NameFields(c: Candidate)
  {
    IsLikelyName(c.nameRaw) && c.name == SanitizeResidentName(c.nameRaw) && LetterName(c.name)
  }

  /** A vertical-pair candidate's jobs: a dream job, no current job, only the dream-match issue. */
  ghost predicate JobFields(c: Candidate, sourceFileName: string)
  {
    c.dreamJobRaw != []
    && c.currentJobRaw.None? && c.currentJobStoreId.None? && c.currentMatchConfidence.None?
    && 0.0 <= c.matchConfidence <= 1.0
    && c.issues == (if Truthy(c.dreamJobStoreId) then [] else [DreamUnmatched])
    && (c.selected <==> Truthy(c.dreamJobStoreId) && c.matchConfidence >= AutoSelectMinConfidence)
    && c.sourceFileName == sourceFileName
  }

  /** Every vertical-pair candidate: a parsed name, a store-like dream job, only the dream-match issue. */
  ghost predicate WellFormed(c: Candidate, sourceFileName: string)
  {
    NameFields(c) && IsLikelyStoreName(c.dreamJobRaw) && JobFields(c, sourceFileName)
  }

  lemma PairCandidateName(pendingText: string, name: string, raw: string, m: StoreMatch, sourceFileName: string)
    requires IsLikelyName(pendingText) && name == SanitizeResidentName(pendingText)
    ensures NameFields(PairCandidate(pendingText, name, raw, m, sourceFileName))
  {
    LikelyNameShape(pendingText);
  }

  lemma PairCandidateJobs(pendingText: string, name: string, raw: string, m: StoreMatch, sourceFileName: string)
    requires name != [] && raw != []
    requires 0.0 <= m.confidence <= 1.0
    ensures JobFields(PairCandidate(pendingText, name, raw, m, sourceFileName), sourceFileName)
  {
  }

  lemma PairCandidateWellFormed(pendingText: string, name: string, raw: string, m: StoreMatch, sourceFileName: string)
    requires IsLikelyName(pendingText) && name == SanitizeResidentName(pendingText) && raw != [] && IsLikelyStoreName(raw)
    requires 0.0 <= m.confidence <= 1.0
    ensures WellFormed(PairCandidate(pendingText, name, raw, m, sourceFileName), sourceFileName)
  {
    PairCandidateName(pendingText, name, raw, m, sourceFileName);
    LikelyNameShape(pendingText);
    PairCandidateJobs(pendingText, name, raw, m, sourceFileName);
  }

  lemma PairedWellFormed(c: Candidate, lines: seq<OcrLine>, stores: seq<Store>, sourceFileName: string)
    requires PairedFrom(c, Views(lines, stores), sourceFileName)
    ensures WellFormed(c, sourceFileName)
  {
    var views := Views(lines, stores);
    var j, k :| 0 <= j < k < |views| && views[j].name == Some(c.nameRaw)
                && views[k].raw != [] && views[k].storeLine
                && c == PairCandidate(c.nameRaw, views[j].sanitized, views[k].raw, views[k].storeMatch, sourceFileName);
    ViewSpec(lines[j], stores);
    ViewSpec(lines[k], stores);
    PairCandidateWellFormed(c.nameRaw, views[j].sanitized, views[k].raw, views[k].storeMatch, sourceFileName);
  }

  /**
   * Every candidate pairs a name line with a later store line and is well
   * formed, and each uses two scanned lines of its own, so there are at most
   * half as many candidates as scanned lines.
   */
  lemma VerticalPairCandidatesSpec(lines: seq<OcrLine>, inferredWidth: int, stores: seq<Store>, sourceFileName: string)
    ensures 2 * |VerticalPairCandidates(lines, inferredWidth, stores, sourceFileName)| <= |LeftLines(lines, inferredWidth)|
    ensures AllPaired(VerticalPairCandidates(lines, inferredWidth, stores, sourceFileName), Views(LeftLines(lines, inferredWidth), stores), sourceFileName)
    ensures forall c :: c in VerticalPairCandidates(lines, inferredWidth, stores, sourceFileName) ==> WellFormed(c, sourceFileName)
  {
    var left := LeftLines(lines, inferredWidth);
    var views := Views(left, stores);
    RunInvariant(views, sourceFileName);
    forall c | c in Run(views, sourceFileName).out ensures WellFormed(c, sourceFileName) {
      PairedWellFormed(c, left, stores, sourceFileName);
    }
  }
}
