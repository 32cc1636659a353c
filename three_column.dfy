/**
 * The three-column extractor: fragments are grouped into rows, each row is
 * split into columns, the column with the longest plausible name supplies
 * the name, the last other column the dream job, and store names embedded
 * anywhere in the row can override weak column matches.
 */
module ThreeColumn {
  import opened Wrappers
  import opened Seqs
  import opened Strings
  import opened Sorting
  import opened Types
  import opened ImportTypes
  import opened TextUtils
  import opened StoreMatching
  import opened Layout
  import opened NamePicking
  import opened LineFilters

  // ---------------------------------------------------------------------
  // The name column
  // ---------------------------------------------------------------------

  datatype NameChoice = NameChoice(index: nat, pick: Option<Picked>)

  /** The name-column loop over the columns' picks: a later pick wins only with a strictly longer name. */
  function ChooseName(picks: seq<Option<Picked>>): NameChoice
    requires |picks| >= 1
  {
    if |picks| == 1 then NameChoice(0, picks[0])
    else
      var i := |picks| - 1;
      var c := ChooseName(picks[..i]);
      if picks[i].Some? && (c.pick.None? || |picks[i].value.name| > |c.pick.value.name|) then NameChoice(i, picks[i])
      else c
  }

  /**
   * The chosen column holds the chosen pick; there is none exactly when no
   * column has one; otherwise no column has a longer name and every earlier
   * column a strictly shorter one.
   */
  lemma {:induction false} ChooseNameBest(picks: seq<Option<Picked>>)
    requires |picks| >= 1
    ensures ChooseName(picks).index < |picks| && ChooseName(picks).pick == picks[ChooseName(picks).index]
    ensures ChooseName(picks).pick.None? <==> forall j :: 0 <= j < |picks| ==> picks[j].None?
    ensures ChooseName(picks).pick.Some? ==>
              forall j :: 0 <= j < |picks| && picks[j].Some? ==> |picks[j].value.name| <= |ChooseName(picks).pick.value.name|
    ensures ChooseName(picks).pick.Some? ==>
              forall j :: 0 <= j < ChooseName(picks).index && picks[j].Some? ==> |picks[j].value.name| < |ChooseName(picks).pick.value.name|
  {
    if |picks| > 1 {
      var i := |picks| - 1;
      ChooseNameBest(picks[..i]);
      assert forall j :: 0 <= j < i ==> picks[..i][j] == picks[j];
    }
  }

  lemma ChooseNameStep(picks: seq<Option<Picked>>, i: nat, c: NameChoice, pick: Option<Picked>)
    requires 1 <= i < |picks| && c == ChooseName(picks[..i]) && pick == picks[i]
    ensures ChooseName(picks[..i + 1]) ==
              if pick.Some? && (c.pick.None? || |pick.value.name| > |c.pick.value.name|) then NameChoice(i, pick) else c
  {
    assert picks[..i + 1][..i] == picks[..i];
  }

  /** The name-column loop. */
  method PickNameColumn(colTexts: seq<seq<string>>, stores: seq<Store>) returns (nameColIndex: nat, namePick: Option<Picked>)
    requires |colTexts| >= 1
    ensures NameChoice(nameColIndex, namePick) == ChooseName(MapSeq(colTexts, t => PickBestName(t, Some(stores))))
  {
    ghost var picks := MapSeq(colTexts, t => PickBestName(t, Some(stores)));
    nameColIndex := 0;
    namePick := PickBestName(colTexts[0], Some(stores));
    for i := 1 to |colTexts|
      invariant NameChoice(nameColIndex, namePick) == ChooseName(picks[..i])
    {
      var pick := PickBestName(colTexts[i], Some(stores));
      ChooseNameStep(picks, i, NameChoice(nameColIndex, namePick), pick);
      if pick.Some? && (namePick.None? || |pick.value.name| > |namePick.value.name|) {
        namePick := pick;
        nameColIndex := i;
      }
    }
    assert picks[..|colTexts|] == picks;
  }

  /** `otherIndexes[otherIndexes.length - 1]`: the last column other than the name column. */
  function DreamColumnIndex(n: nat, nameCol: nat): (d: nat)
    requires n >= 2 && nameCol < n
    ensures d < n && d != nameCol
    ensures d == n - 1 || (d == n - 2 && nameCol == n - 1)
  {
    if n - 1 != nameCol then n - 1 else n - 2
  }

  // ---------------------------------------------------------------------
  // Current and dream jobs
  // ---------------------------------------------------------------------

  predicate NonEmptyText(t: string) { t != [] }
  function NegLen(t: string): int { -|t| }

  /** `nonNameTrimmed.sort((a, b) => b.length - a.length)[0]` */
  function LongestText(texts: seq<string>): Option<string>
  {
    var sorted := SortBy(texts, NegLen);
    if sorted == [] then None else Some(sorted[0])
  }

  /** The name-column match if strong, else a strong middle-column match, else the name-column match. */
  function ChooseCurrent(fromNameCol: StorePick, fromMiddle: StorePick): StorePick
  {
    if fromNameCol.confidence >= 0.75 then fromNameCol
    else if fromMiddle.confidence >= 0.75 then fromMiddle
    else fromNameCol
  }

  /** The dream-column match if positive, else a positive right-column match, else nothing. */
  function ChooseDream(fromDreamCol: StorePick, fromRight: StorePick): StorePick
  {
    if fromDreamCol.confidence > 0.0 then fromDreamCol
    else if fromRight.confidence > 0.0 then fromRight
    else NoPick
  }

  /** A weak match: no id, or below 0.75. */
  predicate Weak(m: StorePick) { !Truthy(m.storeId) || m.confidence < 0.75 }

  function PickOfHit(h: Hit): StorePick
  {
    StorePick(Some(h.store.name), Some(h.store.id), Some(h.store.name), 0.9)
  }

  /** With at least one embedded store and a weak dream, the last embedded store becomes the dream at 0.9. */
  function OverrideDream(dream: StorePick, embedded: seq<Hit>): StorePick
  {
    if |embedded| > 0 && Weak(dream) then PickOfHit(embedded[|embedded| - 1]) else dream
  }

  /**
   * With two embedded stores or more, no unemployed text, and a weak current
   * match, the first embedded store becomes the current job at 0.9.
   */
  function OverrideCurrent(current: StorePick, embedded: seq<Hit>, hasUnemployed: bool): StorePick
  {
    if |embedded| >= 2 && !hasUnemployed && Weak(current) then PickOfHit(embedded[0]) else current
  }

  // ---------------------------------------------------------------------
  // The candidate
  // ---------------------------------------------------------------------

  /** The dream-job issue: none parsed, else none matched. */
  function DreamIssues(dream: StorePick): seq<Issue>
  {
    if !Truthy(dream.raw) then [DreamUnparsed]
    else if !Truthy(dream.storeId) then [DreamUnmatched]
    else []
  }

  /** The current-job issue: a current text that is not unemployed-like and has no match. */
  function CurrentIssues(raw: Option<string>, current: StorePick): seq<Issue>
  {
    if Truthy(raw) && !Truthy(current.storeId) && !IsUnemployedText(raw.GetOr([])) then [CurrentUnmatched] else []
  }

  function IssuesFor(currentJobRaw: Option<string>, current: StorePick, dream: StorePick): seq<Issue>
  {
    DreamIssues(dream) + CurrentIssues(OrElse(currentJobRaw, current.raw), current)
  }

  function Assemble(namePick: Picked, currentJobRaw: Option<string>, current: StorePick, dream: StorePick,
                    sourceFileName: string): Candidate
  {
    Candidate(
      nameRaw := namePick.raw,
      currentJobRaw := OrElse(currentJobRaw, current.raw),
      dreamJobRaw := dream.raw.GetOr([]),
      name := namePick.name,
      currentJobStoreId := current.storeId,
      dreamJobStoreId := dream.storeId,
      matchedCurrentStoreName := current.storeName,
      matchedStoreName := dream.storeName,
      currentMatchConfidence := Some(current.confidence),
      matchConfidence := dream.confidence,
      selected := namePick.name != [] && Truthy(dream.storeId) && dream.confidence >= AutoSelectMinConfidence,
      issues := IssuesFor(currentJobRaw, current, dream),
      sourceFileName := sourceFileName)
  }

  /** How the issues and the auto-selection of a three-column candidate follow from its fields. */
  ghost predicate Consistent(c: Candidate)
  {
    (c.selected <==> c.name != [] && Truthy(c.dreamJobStoreId) && c.matchConfidence >= AutoSelectMinConfidence)
    && c.issues ==
         (if c.dreamJobRaw == [] then [DreamUnparsed]
          else if !Truthy(c.dreamJobStoreId) then [DreamUnmatched]
          else [])
         + (if Truthy(c.currentJobRaw) && !Truthy(c.currentJobStoreId) && !IsUnemployedText(c.currentJobRaw.value)
            then [CurrentUnmatched] else [])
  }

  lemma AssembleConsistent(namePick: Picked, currentJobRaw: Option<string>, current: StorePick, dream: StorePick,
                           sourceFileName: string)
    ensures Consistent(Assemble(namePick, currentJobRaw, current, dream, sourceFileName))
  {
  }

  /** The name column's other texts: those that do not normalise like the picked name's trimmed text. */
  function NonNameTexts(nameColTexts: seq<string>, namePick: Picked): seq<string>
  {
    Filter(nameColTexts, t => NormalizeForMatch(t) != NormalizeForMatch(namePick.raw))
  }

  function NonNameTrimmed(nonName: seq<string>): seq<string>
  {
    Filter(MapSeq(nonName, Trim), NonEmptyText)
  }

  /** `'UNEMPLOYED'` when an other text is unemployed-like, else the longest other text, if any. */
  function CurrentJobRawOf(nonNameTrimmed: seq<string>): Option<string>
  {
    if Any(nonNameTrimmed, IsUnemployedText) then Some("UNEMPLOYED") else LongestText(nonNameTrimmed)
  }

  /** The current-job match before the embedded override. */
  function CurrentColumnsPick(colTexts: seq<seq<string>>, nonName: seq<string>, stores: seq<Store>): StorePick
  {
    var middleTexts := if |colTexts| == 3 then colTexts[1] else [];
    var currentFromMiddle := if |middleTexts| > 0 then PickBestStoreMatch(middleTexts, stores) else NoPick;
    ChooseCurrent(PickBestStoreMatch(nonName, stores), currentFromMiddle)
  }

  /** The dream-job match before the embedded override. */
  function DreamColumnsPick(colTexts: seq<seq<string>>, nameCol: nat, stores: seq<Store>): StorePick
    requires |colTexts| >= 2 && nameCol < |colTexts|
  {
    var rightTexts := if |colTexts| == 3 then colTexts[2] else [];
    var dreamFromRight := if |rightTexts| > 0 then PickBestStoreMatch(rightTexts, stores) else NoPick;
    ChooseDream(PickBestStoreMatch(colTexts[DreamColumnIndex(|colTexts|, nameCol)], stores), dreamFromRight)
  }

  /** The per-row computation once the name column and its pick are known. */
  function BuildCandidate(rowText: string, colTexts: seq<seq<string>>, nameCol: nat, namePick: Picked,
                          stores: seq<Store>, sourceFileName: string): Candidate
    requires |colTexts| >= 2 && nameCol < |colTexts|
  {
    var nonName := NonNameTexts(colTexts[nameCol], namePick);
    var nonNameTrimmed := NonNameTrimmed(nonName);
    var embedded := FindEmbeddedStores(rowText, stores);
    var current := OverrideCurrent(CurrentColumnsPick(colTexts, nonName, stores), embedded, Any(nonNameTrimmed, IsUnemployedText));
    var dream := OverrideDream(DreamColumnsPick(colTexts, nameCol, stores), embedded);
    Assemble(namePick, CurrentJobRawOf(nonNameTrimmed), current, dream, sourceFileName)
  }

  function Texts(lines: seq<OcrLine>): seq<string>
  {
    MapSeq(lines, (l: OcrLine) => l.text)
  }

  /** One row's candidate, if it has two columns or more and one of them a name. */
  function RowCandidate(row: Row, inferredWidth: int, stores: seq<Store>, sourceFileName: string): Option<Candidate>
  {
    var cols := SplitRow(row.lines, inferredWidth);
    if |cols| < 2 then None
    else ColumnsCandidate(Join(Texts(row.lines), ' '), MapSeq(cols, Texts), stores, sourceFileName)
  }

  /** The candidate of a row split into the column texts `colTexts`. */
  function ColumnsCandidate(rowText: string, colTexts: seq<seq<string>>, stores: seq<Store>, sourceFileName: string): Option<Candidate>
    requires |colTexts| >= 2
  {
    var choice := ChooseName(MapSeq(colTexts, t => PickBestName(t, Some(stores))));
    ChooseNameBest(MapSeq(colTexts, t => PickBestName(t, Some(stores))));
    if choice.pick.None? then None
    else Some(BuildCandidate(rowText, colTexts, choice.index, choice.pick.value, stores, sourceFileName))
  }

  function Relevant(lines: seq<OcrLine>): seq<OcrLine>
  {
    Filter(Filter(lines, NotHeader), HasText)
  }

  /** The candidates of the rows, in row order. */
  function RowCandidates(rows: seq<Row>, inferredWidth: int, stores: seq<Store>, sourceFileName: string): seq<Candidate>
  {
    Collect(rows, r => RowCandidate(r, inferredWidth, stores, sourceFileName))
  }

  /** `extractCandidatesThreeColumn`, as a function of its inputs. */
  function ThreeColumnCandidates(lines: seq<OcrLine>, inferredWidth: int, stores: seq<Store>, sourceFileName: string): seq<Candidate>
  {
    RowCandidates(GroupRows(Relevant(lines)), inferredWidth, stores, sourceFileName)
  }

  /** `extractCandidatesThreeColumn` */
  method ExtractCandidatesThreeColumn(lines: seq<OcrLine>, inferredWidth: int, stores: seq<Store>, sourceFileName: string)
    returns (out: seq<Candidate>)
    ensures out == ThreeColumnCandidates(lines, inferredWidth, stores, sourceFileName)
  {
    var relevant := Filter(Filter(lines, NotHeader), HasText);
    var rows := GroupLinesIntoRows(relevant);
    out := RowsScan(rows, inferredWidth, stores, sourceFileName);
  }

  /** The row loop: one candidate pushed per row that yields one. */
  method RowsScan(rows: seq<Row>, inferredWidth: int, stores: seq<Store>, sourceFileName: string) returns (out: seq<Candidate>)
    ensures out == RowCandidates(rows, inferredWidth, stores, sourceFileName)
  {
    out := [];
    for i := 0 to |rows|
      invariant out == RowCandidates(rows[..i], inferredWidth, stores, sourceFileName)
    {
      var c := RowCandidate(rows[i], inferredWidth, stores, sourceFileName);
      CollectSnoc(rows, r => RowCandidate(r, inferredWidth, stores, sourceFileName), i);
      if c.Some? {
        out := out + [c.value];
      }
    }
    assert rows[..|rows|] == rows;
  }

  // ---------------------------------------------------------------------
  // Properties
  // ---------------------------------------------------------------------

  /** The current choice is strong exactly when one of the two column matches is. */
  lemma ChooseCurrentSpec(fromNameCol: StorePick, fromMiddle: StorePick)
    ensures ChooseCurrent(fromNameCol, fromMiddle) == fromNameCol || ChooseCurrent(fromNameCol, fromMiddle) == fromMiddle
    ensures ChooseCurrent(fromNameCol, fromMiddle).confidence >= 0.75
            <==> fromNameCol.confidence >= 0.75 || fromMiddle.confidence >= 0.75
    ensures fromNameCol.confidence >= 0.75 ==> ChooseCurrent(fromNameCol, fromMiddle) == fromNameCol
  {
  }

  /** The dream choice has a positive confidence exactly when one of the two column matches has. */
  lemma ChooseDreamSpec(fromDreamCol: StorePick, fromRight: StorePick)
    ensures ChooseDream(fromDreamCol, fromRight) in {fromDreamCol, fromRight, NoPick}
    ensures ChooseDream(fromDreamCol, fromRight).confidence > 0.0
            <==> fromDreamCol.confidence > 0.0 || fromRight.confidence > 0.0
    ensures fromDreamCol.confidence > 0.0 ==> ChooseDream(fromDreamCol, fromRight) == fromDreamCol
  {
  }

  /**
   * The embedded override of the dream: it leaves a strong match alone, and
   * otherwise, given a hit, takes the last hit's store at 0.9.
   */
  lemma OverrideDreamSpec(dream: StorePick, embedded: seq<Hit>)
    ensures !Weak(dream) ==> OverrideDream(dream, embedded) == dream
    ensures embedded == [] ==> OverrideDream(dream, embedded) == dream
    ensures OverrideDream(dream, embedded) != dream ==>
              embedded != [] && OverrideDream(dream, embedded).storeId == Some(embedded[|embedded| - 1].store.id)
              && OverrideDream(dream, embedded).confidence == 0.9
    ensures embedded != [] && embedded[|embedded| - 1].store.id != [] ==> !Weak(OverrideDream(dream, embedded))
  {
  }

  /**
   * The embedded override of the current job: it needs two hits and no
   * unemployed text, leaves a strong match alone, and takes the first hit.
   */
  lemma OverrideCurrentSpec(current: StorePick, embedded: seq<Hit>, hasUnemployed: bool)
    ensures hasUnemployed || |embedded| < 2 || !Weak(current) ==> OverrideCurrent(current, embedded, hasUnemployed) == current
    ensures OverrideCurrent(current, embedded, hasUnemployed) != current ==>
              |embedded| >= 2 && OverrideCurrent(current, embedded, hasUnemployed).storeId == Some(embedded[0].store.id)
              && OverrideCurrent(current, embedded, hasUnemployed).confidence == 0.9
    ensures |embedded| >= 2 && !hasUnemployed && embedded[0].store.id != [] ==>
              !Weak(OverrideCurrent(current, embedded, hasUnemployed))
  {
  }

  lemma AssembleUnemployed(namePick: Picked, u: string, current: StorePick, dream: StorePick, sourceFileName: string)
    requires IsUnemployedText(u)
    ensures Assemble(namePick, Some(u), current, dream, sourceFileName).currentJobRaw == Some(u)
    ensures CurrentUnmatched !in Assemble(namePick, Some(u), current, dream, sourceFileName).issues
  {
    assert CurrentIssues(Some(u), current) == [];
  }

  /**
   * An unemployed-like other text in the name column makes the current job
   * `'UNEMPLOYED'` and keeps the embedded stores out of the current job.
   */
  lemma UnemployedCurrentJob(rowText: string, colTexts: seq<seq<string>>, nameCol: nat, namePick: Picked,
                             stores: seq<Store>, sourceFileName: string)
    requires |colTexts| >= 2 && nameCol < |colTexts|
    requires Any(NonNameTrimmed(NonNameTexts(colTexts[nameCol], namePick)), IsUnemployedText)
    ensures BuildCandidate(rowText, colTexts, nameCol, namePick, stores, sourceFileName).currentJobRaw == Some("UNEMPLOYED")
    ensures BuildCandidate(rowText, colTexts, nameCol, namePick, stores, sourceFileName).currentJobStoreId
            == CurrentColumnsPick(colTexts, NonNameTexts(colTexts[nameCol], namePick), stores).storeId
    ensures CurrentUnmatched !in BuildCandidate(rowText, colTexts, nameCol, namePick, stores, sourceFileName).issues
  {
    var nonName := NonNameTexts(colTexts[nameCol], namePick);
    var nonNameTrimmed := NonNameTrimmed(nonName);
    var embedded := FindEmbeddedStores(rowText, stores);
    var current := CurrentColumnsPick(colTexts, nonName, stores);
    assert OverrideCurrent(current, embedded, true) == current;
    var dream := OverrideDream(DreamColumnsPick(colTexts, nameCol, stores), embedded);
    assert CurrentJobRawOf(nonNameTrimmed) == Some("UNEMPLOYED");
    assert BuildCandidate(rowText, colTexts, nameCol, namePick, stores, sourceFileName)
        == Assemble(namePick, Some("UNEMPLOYED"), current, dream, sourceFileName);
    UnemployedWord();
    AssembleUnemployed(namePick, "UNEMPLOYED", current, dream, sourceFileName);
  }

  /** The longest text, the earliest on ties; nothing exactly for no texts. */
  lemma LongestTextSpec(texts: seq<string>)
    ensures LongestText(texts).None? <==> texts == []
    ensures LongestText(texts).Some? ==>
              exists i :: EarliestMin(texts, NegLen, i) && LongestText(texts).value == texts[i]
  {
    if texts != [] {
      SortByHead(texts, NegLen);
    }
  }

  /** Without other texts in the name column the current job text is the current match's text. */
  lemma NoOtherTextCurrentJob(nonNameTrimmed: seq<string>)
    ensures CurrentJobRawOf(nonNameTrimmed).None? <==> nonNameTrimmed == []
  {
    LongestTextSpec(nonNameTrimmed);
  }

  /** What every three-column candidate satisfies. */
  ghost predicate WellFormed(c: Candidate, sourceFileName: string)
  {
    c.name != [] && Consistent(c)
    && 0.0 <= c.matchConfidence <= 1.0
    && c.currentMatchConfidence.Some? && 0.0 <= c.currentMatchConfidence.value <= 1.0
    && (c.selected ==> c.matchConfidence >= AutoSelectMinConfidence && Truthy(c.dreamJobStoreId))
    && c.sourceFileName == sourceFileName
  }

  lemma CurrentColumnsPickBounded(colTexts: seq<seq<string>>, nonName: seq<string>, stores: seq<Store>)
    ensures 0.0 <= CurrentColumnsPick(colTexts, nonName, stores).confidence <= 1.0
  {
    PickBestStoreMatchBounded(nonName, stores);
    if |colTexts| == 3 {
      PickBestStoreMatchBounded(colTexts[1], stores);
    }
  }

  lemma DreamColumnsPickBounded(colTexts: seq<seq<string>>, nameCol: nat, stores: seq<Store>)
    requires |colTexts| >= 2 && nameCol < |colTexts|
    ensures 0.0 <= DreamColumnsPick(colTexts, nameCol, stores).confidence <= 1.0
  {
    PickBestStoreMatchBounded(colTexts[DreamColumnIndex(|colTexts|, nameCol)], stores);
    if |colTexts| == 3 {
      PickBestStoreMatchBounded(colTexts[2], stores);
    }
  }

  lemma BuildCandidateWellFormed(rowText: string, colTexts: seq<seq<string>>, nameCol: nat, namePick: Picked,
                                 stores: seq<Store>, sourceFileName: string)
    requires |colTexts| >= 2 && nameCol < |colTexts| && namePick.name != []
    ensures WellFormed(BuildCandidate(rowText, colTexts, nameCol, namePick, stores, sourceFileName), sourceFileName)
  {
    var nonName := NonNameTexts(colTexts[nameCol], namePick);
    CurrentColumnsPickBounded(colTexts, nonName, stores);
    DreamColumnsPickBounded(colTexts, nameCol, stores);
    var nonNameTrimmed := NonNameTrimmed(nonName);
    var embedded := FindEmbeddedStores(rowText, stores);
    var current := OverrideCurrent(CurrentColumnsPick(colTexts, nonName, stores), embedded, Any(nonNameTrimmed, IsUnemployedText));
    var dream := OverrideDream(DreamColumnsPick(colTexts, nameCol, stores), embedded);
    AssembleConsistent(namePick, CurrentJobRawOf(nonNameTrimmed), current, dream, sourceFileName);
  }

  /**
   * Columns yield a candidate exactly when some column has a name pick; the
   * candidate is then well formed.
   */
  /** Some column has a name pick. */
  predicate SomeNamePick(colTexts: seq<seq<string>>, stores: seq<Store>)
  {
    exists j :: 0 <= j < |colTexts| && PickBestName(colTexts[j], Some(stores)).Some?
  }

  lemma ColumnsCandidateSpec(rowText: string, colTexts: seq<seq<string>>, stores: seq<Store>, sourceFileName: string)
    requires |colTexts| >= 2
    ensures ColumnsCandidate(rowText, colTexts, stores, sourceFileName).Some? <==> SomeNamePick(colTexts, stores)
    ensures ColumnsCandidate(rowText, colTexts, stores, sourceFileName).Some? ==>
              WellFormed(ColumnsCandidate(rowText, colTexts, stores, sourceFileName).value, sourceFileName)
  {
    var picks := MapSeq(colTexts, t => PickBestName(t, Some(stores)));
    ChooseNameBest(picks);
    var choice := ChooseName(picks);
    if choice.pick.Some? {
      PickBestNameShape(colTexts[choice.index], Some(stores));
      LikelyNameNonEmpty(choice.pick.value.name);
      BuildCandidateWellFormed(rowText, colTexts, choice.index, choice.pick.value, stores, sourceFileName);
    } else {
      forall j | 0 <= j < |colTexts| ensures PickBestName(colTexts[j], Some(stores)).None? {
        assert picks[j].None?;
      }
    }
  }

  /**
   * A row yields a candidate exactly when it splits into two columns or more
   * and some column has a name pick.
   */
  lemma RowCandidateSome(row: Row, inferredWidth: int, stores: seq<Store>, sourceFileName: string)
    ensures RowCandidate(row, inferredWidth, stores, sourceFileName).Some? <==>
              |SplitRow(row.lines, inferredWidth)| >= 2 && SomeNamePick(MapSeq(SplitRow(row.lines, inferredWidth), Texts), stores)
  {
    var cols := SplitRow(row.lines, inferredWidth);
    if |cols| >= 2 {
      ColumnsCandidateSpec(Join(Texts(row.lines), ' '), MapSeq(cols, Texts), stores, sourceFileName);
    }
  }

  /** A row's candidate is well formed. */
  lemma RowCandidateWellFormed(row: Row, inferredWidth: int, stores: seq<Store>, sourceFileName: string)
    ensures RowCandidate(row, inferredWidth, stores, sourceFileName).Some? ==>
              WellFormed(RowCandidate(row, inferredWidth, stores, sourceFileName).value, sourceFileName)
  {
    var cols := SplitRow(row.lines, inferredWidth);
    if |cols| >= 2 {
      ColumnsCandidateSpec(Join(Texts(row.lines), ' '), MapSeq(cols, Texts), stores, sourceFileName);
    }
  }

  lemma RowCandidatesSpec(rows: seq<Row>, inferredWidth: int, stores: seq<Store>, sourceFileName: string)
    ensures |RowCandidates(rows, inferredWidth, stores, sourceFileName)| <= |rows|
    ensures forall k :: 0 <= k < |RowCandidates(rows, inferredWidth, stores, sourceFileName)| ==>
              WellFormed(RowCandidates(rows, inferredWidth, stores, sourceFileName)[k], sourceFileName)
  {
    var f := r => RowCandidate(r, inferredWidth, stores, sourceFileName);
    CollectSpec(rows, f);
    var out := Collect(rows, f);
    forall k | 0 <= k < |out| ensures WellFormed(out[k], sourceFileName) {
      var j :| 0 <= j < |rows| && f(rows[j]) == Some(out[k]);
      RowCandidateWellFormed(rows[j], inferredWidth, stores, sourceFileName);
    }
  }

  /**
   * At most one candidate per row of relevant lines (non-blank, not header
   * or noise), and every candidate well formed.
   */
  lemma ThreeColumnCandidatesSpec(lines: seq<OcrLine>, inferredWidth: int, stores: seq<Store>, sourceFileName: string)
    ensures forall l :: l in Relevant(lines) ==> l in lines && NotHeader(l) && HasText(l)
    ensures |ThreeColumnCandidates(lines, inferredWidth, stores, sourceFileName)| <= |GroupRows(Relevant(lines))|
    ensures forall k :: 0 <= k < |ThreeColumnCandidates(lines, inferredWidth, stores, sourceFileName)| ==>
              WellFormed(ThreeColumnCandidates(lines, inferredWidth, stores, sourceFileName)[k], sourceFileName)
  {
    forall l | l in Relevant(lines) ensures l in lines && NotHeader(l) && HasText(l) {
      FilterMembers(Filter(lines, NotHeader), HasText, l);
      FilterMembers(lines, NotHeader, l);
    }
    RowCandidatesSpec(GroupRows(Relevant(lines)), inferredWidth, stores, sourceFileName);
  }
}
