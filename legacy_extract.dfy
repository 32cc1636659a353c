/**
 * `extractCandidates` of the older single-file extractor (`extract.ts`):
 * index the catalogue, group the fragments into rows, extract at most one
 * candidate per row, then merge the candidates that share a no-space name.
 */
module LegacyExtract {
  import opened Wrappers
  import opened Seqs
  import opened Types
  import opened ImportTypes
  import opened TextUtils
  import opened Layout
  import opened LegacyText
  import opened LegacyMatch
  import opened LegacyRows
  import opened LegacyRow
  import opened LegacyDedupe

  /** `extractFromRow` for one file, as a function of the row. */
  function RowExtractor(inferredWidth: int, mt: Matcher, sourceFileName: string): Row -> Option<Candidate>
  {
    row => ExtractFromRow(row, inferredWidth, mt, sourceFileName)
  }

  /** The candidates of the rows, in row order, one for each row that yields one. */
  function RowCandidates(rows: seq<Row>, inferredWidth: int, mt: Matcher, sourceFileName: string): seq<Candidate>
  {
    Collect(rows, RowExtractor(inferredWidth, mt, sourceFileName))
  }

  /** `extractCandidates`, as a function of its parameters. */
  function ExtractCandidates(lines: seq<OcrLine>, inferredWidth: int, stores: seq<Store>, sourceFileName: string): seq<Candidate>
  {
    var mt := MatcherOf(IndexStores(stores));
    Deduplicate(RowCandidates(GroupIntoRows(lines), inferredWidth, mt, sourceFileName))
  }

  /** What every candidate of one file keeps: a valid name, the file name, and catalogue store references. */
  ghost predicate SoundFor(c: Candidate, stores: seq<Store>, sourceFileName: string)
  {
    IsValidName(c.name) && c.sourceFileName == sourceFileName && CandidateFromCatalogue(c, stores)
  }

  /** Every row candidate is sound when the matchers are. */
  lemma RowCandidatesSound(rows: seq<Row>, inferredWidth: int, mt: Matcher, sourceFileName: string, stores: seq<Store>)
    requires Sound(mt, stores)
    ensures forall c :: c in RowCandidates(rows, inferredWidth, mt, sourceFileName) ==> SoundFor(c, stores, sourceFileName)
  {
    var f := RowExtractor(inferredWidth, mt, sourceFileName);
    forall c | c in RowCandidates(rows, inferredWidth, mt, sourceFileName) ensures SoundFor(c, stores, sourceFileName) {
      CollectMembers(rows, f, c);
      var j :| 0 <= j < |rows| && f(rows[j]) == Some(c);
      ExtractFromRowSpec(rows[j], inferredWidth, mt, sourceFileName, stores);
    }
  }

  /** A record merged from a group of sound candidates is sound. */
  lemma MergedSound(r: Candidate, group: seq<Candidate>, stores: seq<Store>, sourceFileName: string)
    requires MergedFrom(r, group)
    requires forall k :: 0 <= k < |group| ==> SoundFor(group[k], stores, sourceFileName)
    ensures SoundFor(r, stores, sourceFileName)
  {
    var d, c := FirstOrHead(group, HasDream), FirstOrHead(group, HasCurrentStore);
    assert SoundFor(group[0], stores, sourceFileName);
    assert CandidateFromCatalogue(group[d], stores);
    assert CandidateFromCatalogue(group[c], stores);
  }

  /** Deduplicating sound candidates gives sound candidates. */
  lemma DeduplicateSound(cs: seq<Candidate>, stores: seq<Store>, sourceFileName: string)
    requires forall c :: c in cs ==> SoundFor(c, stores, sourceFileName)
    ensures forall j :: 0 <= j < |Deduplicate(cs)| ==> SoundFor(Deduplicate(cs)[j], stores, sourceFileName)
  {
    forall j | 0 <= j < |Deduplicate(cs)| ensures SoundFor(Deduplicate(cs)[j], stores, sourceFileName) {
      DeduplicateEntry(cs, j);
      var group := GroupOf(cs, NameKeyOf, NameKeys(cs)[j]);
      assert forall k :: 0 <= k < |group| ==> group[k] in cs;
      MergedSound(Deduplicate(cs)[j], group, stores, sourceFileName);
    }
  }

  /** Deduplication never lengthens the list. */
  lemma DeduplicateShorter(cs: seq<Candidate>)
    ensures |Deduplicate(cs)| <= |cs|
  {
    DeduplicateOrder(cs);
    Dedupe.FirstSeenMembers(MapSeq(cs, NameKeyOf), "");
    FirstSeenShorter(MapSeq(cs, NameKeyOf));
  }

  lemma {:induction false} FirstSeenShorter(s: seq<string>)
    ensures |Dedupe.FirstSeen(s)| <= |s|
  {
    if s != [] {
      FirstSeenShorter(s[..|s| - 1]);
    }
  }

  /**
   * `extractCandidates`: no two candidates share a name once spaces are
   * removed; there are no more candidates than rows; and every candidate
   * has a valid name, the file's name and store references from the
   * catalogue.
   */
  lemma ExtractCandidatesSpec(lines: seq<OcrLine>, inferredWidth: int, stores: seq<Store>, sourceFileName: string)
    ensures var r := ExtractCandidates(lines, inferredWidth, stores, sourceFileName);
      Distinct(MapSeq(r, NameKeyOf)) && |r| <= |GroupIntoRows(lines)|
      && forall j :: 0 <= j < |r| ==> SoundFor(r[j], stores, sourceFileName)
  {
    var idx := IndexStores(stores);
    var mt := MatcherOf(idx);
    var rows := GroupIntoRows(lines);
    var cs := RowCandidates(rows, inferredWidth, mt, sourceFileName);
    MatcherOfSound(idx);
    RowCandidatesSound(rows, inferredWidth, mt, sourceFileName, stores);
    DeduplicateSound(cs, stores, sourceFileName);
    DeduplicateKeys(cs);
    DeduplicateShorter(cs);
    CollectSpec(rows, RowExtractor(inferredWidth, mt, sourceFileName));
  }

  /** An empty page gives no candidates. */
  lemma ExtractCandidatesEmpty(inferredWidth: int, stores: seq<Store>, sourceFileName: string)
    ensures ExtractCandidates([], inferredWidth, stores, sourceFileName) == []
  {
    assert SortedKept([]) == [];
    assert GroupIntoRows([]) == [];
  }

  /** The row loop of `extractCandidates`. */
  method RowLoop(rows: seq<Row>, inferredWidth: int, mt: Matcher, sourceFileName: string) returns (candidates: seq<Candidate>)
    ensures candidates == RowCandidates(rows, inferredWidth, mt, sourceFileName)
  {
    candidates := [];
    for i := 0 to |rows|
      invariant candidates == RowCandidates(rows[..i], inferredWidth, mt, sourceFileName)
    {
      CollectSnoc(rows, RowExtractor(inferredWidth, mt, sourceFileName), i);
      var candidate := ExtractFromRowScan(rows[i], inferredWidth, mt, sourceFileName);
      if candidate.Some? {
        candidates := candidates + [candidate.value];
      }
    }
    assert rows[..|rows|] == rows;
  }

  /** `extractCandidates`, step by step. */
  method ExtractCandidatesScan(lines: seq<OcrLine>, inferredWidth: int, stores: seq<Store>, sourceFileName: string)
    returns (r: seq<Candidate>)
    ensures r == ExtractCandidates(lines, inferredWidth, stores, sourceFileName)
  {
    var storeIndex := BuildStoreIndex(stores);
    var rows := GroupIntoRowsScan(lines);
    var candidates := RowLoop(rows, inferredWidth, MatcherOf(storeIndex), sourceFileName);
    r := DeduplicateCandidates(candidates);
  }
}
