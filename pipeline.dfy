/**
 * Page-level strategy selection: each OCR page goes through the three-column
 * and vertical-pair extractors, falling back to the plain-text extractor when
 * both find nothing; candidates are deduplicated per file and then over all
 * files. The OCR engines are abstracted: a file is given with the pages its
 * recognition passes produced.
 */
module Pipeline {
  import opened Wrappers
  import opened Seqs
  import opened Types
  import opened ImportTypes
  import TC = ThreeColumn
  import VP = VerticalPair
  import PT = PlainText
  import D = Dedupe

  /** What a recognition pass returns for a page: `{ lines?, text? }`. */
  datatype Page = Page(lines: Option<seq<OcrLine>>, text: Option<string>)

  /** `Math.max(1, ...lines.map(l => l.bbox.x1))` */
  function InferredWidth(lines: seq<OcrLine>): (w: int)
    ensures w >= 1
    ensures forall k :: 0 <= k < |lines| ==> lines[k].bbox.x1 <= w
    ensures w == 1 || exists k :: 0 <= k < |lines| && lines[k].bbox.x1 == w
  {
    if lines == [] then 1
    else
      var n := |lines| - 1;
      var w := InferredWidth(lines[..n]);
      assert forall k :: 0 <= k < n ==> lines[..n][k] == lines[k];
      if lines[n].bbox.x1 > w then lines[n].bbox.x1 else w
  }

  /** `parseResultForFile` */
  function ParseResultForFile(fileName: string, page: Page, stores: seq<Store>): seq<Candidate>
  {
    var lines := page.lines.GetOr([]);
    var inferredWidth := InferredWidth(lines);
    var threeCol := TC.ThreeColumnCandidates(lines, inferredWidth, stores, fileName);
    var legacy := VP.VerticalPairCandidates(lines, inferredWidth, stores, fileName);
    if threeCol == [] && legacy == [] then
      var fallbackText := page.text.GetOr([]);
      if fallbackText != [] then PT.PlainTextCandidates(fallbackText, stores, fileName) else []
    else threeCol + legacy
  }

  /** What every extractor promises of each candidate it emits. */
  ghost predicate Sound(c: Candidate, fileName: string)
  {
    c.name != [] && 0.0 <= c.matchConfidence <= 1.0 && D.SelectedHasDream(c) && c.sourceFileName == fileName
  }

  /**
   * The plain-text fallback runs only when both geometric extractors find
   * nothing, and finds nothing itself without page text; otherwise the page
   * yields the three-column candidates followed by the vertical-pair ones.
   */
  lemma ParseResultBranches(fileName: string, page: Page, stores: seq<Store>)
    ensures var lines := page.lines.GetOr([]);
            var threeCol := TC.ThreeColumnCandidates(lines, InferredWidth(lines), stores, fileName);
            var legacy := VP.VerticalPairCandidates(lines, InferredWidth(lines), stores, fileName);
            var r := ParseResultForFile(fileName, page, stores);
            (threeCol != [] || legacy != [] ==> r == threeCol + legacy)
            && (threeCol == [] && legacy == [] && (page.text.None? || page.text == Some([])) ==> r == [])
            && (threeCol == [] && legacy == [] && page.text.Some? && page.text.value != [] ==>
                  r == PT.PlainTextCandidates(page.text.value, stores, fileName))
  {
  }

  /** Every candidate of a page is sound and tagged with the file's name. */
  lemma ParseResultSound(fileName: string, page: Page, stores: seq<Store>)
    ensures forall c :: c in ParseResultForFile(fileName, page, stores) ==> Sound(c, fileName)
  {
    var lines := page.lines.GetOr([]);
    var w := InferredWidth(lines);
    var threeCol := TC.ThreeColumnCandidates(lines, w, stores, fileName);
    var legacy := VP.VerticalPairCandidates(lines, w, stores, fileName);
    if threeCol == [] && legacy == [] {
      PlainTextSound(page.text.GetOr([]), stores, fileName);
    } else {
      ThreeColumnSound(lines, w, stores, fileName);
      VerticalPairSound(lines, w, stores, fileName);
      assert forall c :: c in threeCol + legacy ==> c in threeCol || c in legacy;
    }
  }

  lemma ThreeColumnSound(lines: seq<OcrLine>, w: int, stores: seq<Store>, fileName: string)
    ensures forall c :: c in TC.ThreeColumnCandidates(lines, w, stores, fileName) ==> Sound(c, fileName)
  {
    var cs := TC.ThreeColumnCandidates(lines, w, stores, fileName);
    TC.ThreeColumnCandidatesSpec(lines, w, stores, fileName);
    forall c | c in cs ensures Sound(c, fileName) {
      var k :| 0 <= k < |cs| && cs[k] == c;
      assert TC.WellFormed(c, fileName);
    }
  }

  lemma VerticalPairSound(lines: seq<OcrLine>, w: int, stores: seq<Store>, fileName: string)
    ensures forall c :: c in VP.VerticalPairCandidates(lines, w, stores, fileName) ==> Sound(c, fileName)
  {
    VP.VerticalPairCandidatesSpec(lines, w, stores, fileName);
    forall c | c in VP.VerticalPairCandidates(lines, w, stores, fileName) ensures Sound(c, fileName) {
      assert VP.WellFormed(c, fileName);
    }
  }

  lemma PlainTextSound(text: string, stores: seq<Store>, fileName: string)
    ensures forall c :: c in PT.PlainTextCandidates(text, stores, fileName) ==> Sound(c, fileName)
  {
    PT.PlainTextCandidatesSpec(text, stores, fileName);
    forall c | c in PT.PlainTextCandidates(text, stores, fileName) ensures Sound(c, fileName) {
      assert PT.WellFormed(c, stores, fileName);
    }
  }

  // ---------------------------------------------------------------------------
  // extractResidentsFromScreenshots

  datatype Engine = Local | Google

  /**
   * The pages one file's recognition passes produce: the primary pass, and
   * for the local engine the alternate-preprocessing pass and the sparse
   * page-segmentation pass.
   */
  datatype Recognized = Recognized(name: string, primary: Page, alternate: Page, sparse: Page)

  /** A file's candidates: with the local engine, fewer than 10 on the primary page add the two further passes. */
  function FileCandidates(f: Recognized, engine: Engine, stores: seq<Store>): seq<Candidate>
  {
    var candidates := ParseResultForFile(f.name, f.primary, stores);
    if engine == Local && |candidates| < 10 then
      candidates + ParseResultForFile(f.name, f.alternate, stores) + ParseResultForFile(f.name, f.sparse, stores)
    else candidates
  }

  /** Each file's candidates, in file order. */
  function Batches(files: seq<Recognized>, engine: Engine, stores: seq<Store>): seq<seq<Candidate>>
  {
    MapSeq(files, f => FileCandidates(f, engine, stores))
  }

  /** `allCandidates`: the per-file deduplications, concatenated. */
  function DedupeEach(ks: D.Keys, batches: seq<seq<Candidate>>): seq<Candidate>
  {
    if batches == [] then []
    else
      var n := |batches| - 1;
      DedupeEach(ks, batches[..n]) + D.DedupeWith(ks, batches[n])
  }

  /** All the pages' candidates, concatenated. */
  function Concat(batches: seq<seq<Candidate>>): seq<Candidate>
  {
    if batches == [] then []
    else
      var n := |batches| - 1;
      Concat(batches[..n]) + batches[n]
  }

  /**
   * `extractResidentsFromScreenshots` once the pages are recognized, for the
   * dedupe keys `ks` (the modular copy's `D.Modular`, or the single-file
   * copy's keys).
   */
  function ExtractResidents(ks: D.Keys, files: seq<Recognized>, engine: Engine, stores: seq<Store>): seq<Candidate>
  {
    if files == [] then [] else D.DedupeWith(ks, DedupeEach(ks, Batches(files, engine, stores)))
  }

  /** The orchestration loop, with the recognition passes already done. */
  method ExtractResidentsFromScreenshots(ks: D.Keys, files: seq<Recognized>, engine: Engine, stores: seq<Store>)
    returns (out: seq<Candidate>)
    ensures out == ExtractResidents(ks, files, engine, stores)
  {
    if |files| == 0 {
      return [];
    }
    var allCandidates := DedupeFiles(ks, files, engine, stores);
    out := D.DedupeBy(ks, allCandidates);
  }

  /** The loop over the files: each file's candidates, deduplicated, appended. */
  method DedupeFiles(ks: D.Keys, files: seq<Recognized>, engine: Engine, stores: seq<Store>) returns (allCandidates: seq<Candidate>)
    ensures allCandidates == DedupeEach(ks, Batches(files, engine, stores))
  {
    allCandidates := [];
    for i := 0 to |files|
      invariant allCandidates == DedupeEach(ks, Batches(files[..i], engine, stores))
    {
      var candidates := RecognizedCandidates(files[i], engine, stores);
      var deduped := D.DedupeBy(ks, candidates);
      DedupeEachSnoc(ks, files, engine, stores, i);
      allCandidates := allCandidates + deduped;
    }
    assert files[..|files|] == files;
  }

  /** One file's passes: the primary page, then the alternate and sparse pages when the local engine yields fewer than ten. */
  method RecognizedCandidates(file: Recognized, engine: Engine, stores: seq<Store>) returns (candidates: seq<Candidate>)
    ensures candidates == FileCandidates(file, engine, stores)
  {
    candidates := ParseResultForFile(file.name, file.primary, stores);
    if engine == Local && |candidates| < 10 {
      candidates := candidates + ParseResultForFile(file.name, file.alternate, stores);
      candidates := candidates + ParseResultForFile(file.name, file.sparse, stores);
    }
  }

  lemma DedupeEachSnoc(ks: D.Keys, files: seq<Recognized>, engine: Engine, stores: seq<Store>, i: nat)
    requires i < |files|
    ensures DedupeEach(ks, Batches(files[..i + 1], engine, stores))
         == DedupeEach(ks, Batches(files[..i], engine, stores)) + D.DedupeWith(ks, FileCandidates(files[i], engine, stores))
  {
    MapSeqSnoc(files, f => FileCandidates(f, engine, stores), i);
    assert Batches(files[..i + 1], engine, stores)[..i] == Batches(files[..i], engine, stores);
  }

  // ---------------------------------------------------------------------------
  // Properties

  /** What survives deduplication of every candidate a page yields. */
  ghost predicate Kept(c: Candidate, names: seq<string>)
  {
    c.sourceFileName in names && c.name != [] && 0.0 <= c.matchConfidence <= 1.0 && D.SelectedHasDream(c)
  }

  ghost predicate AllKept(cs: seq<Candidate>, names: seq<string>)
  {
    forall j :: 0 <= j < |cs| ==> Kept(cs[j], names)
  }

  function Names(files: seq<Recognized>): seq<string>
  {
    MapSeq(files, (f: Recognized) => f.name)
  }

  lemma ParsedKept(fileName: string, page: Page, stores: seq<Store>, names: seq<string>)
    requires fileName in names
    ensures AllKept(ParseResultForFile(fileName, page, stores), names)
  {
    ParseResultSound(fileName, page, stores);
    var r := ParseResultForFile(fileName, page, stores);
    forall j | 0 <= j < |r| ensures Kept(r[j], names) {
      assert r[j] in r;
    }
  }

  lemma KeptConcat(a: seq<Candidate>, b: seq<Candidate>, names: seq<string>)
    requires AllKept(a, names) && AllKept(b, names)
    ensures AllKept(a + b, names)
  {
    forall j | 0 <= j < |a + b| ensures Kept((a + b)[j], names) {
      if j < |a| { assert (a + b)[j] == a[j]; } else { assert (a + b)[j] == b[j - |a|]; }
    }
  }

  lemma FileCandidatesKept(f: Recognized, engine: Engine, stores: seq<Store>, names: seq<string>)
    requires f.name in names
    ensures AllKept(FileCandidates(f, engine, stores), names)
  {
    var p, a, s := ParseResultForFile(f.name, f.primary, stores), ParseResultForFile(f.name, f.alternate, stores),
                   ParseResultForFile(f.name, f.sparse, stores);
    ParsedKept(f.name, f.primary, stores, names);
    ParsedKept(f.name, f.alternate, stores, names);
    ParsedKept(f.name, f.sparse, stores, names);
    KeptConcat(p, a, names);
    KeptConcat(p + a, s, names);
  }

  /** A deduplicated candidate keeps the facts of the input it originates from. */
  lemma DedupeKept(ks: D.Keys, cs: seq<Candidate>, names: seq<string>)
    requires AllKept(cs, names)
    ensures AllKept(D.DedupeWith(ks, cs), names)
  {
    assert D.AllSelectedHaveDream(cs) by {
      forall j | 0 <= j < |cs| ensures D.SelectedHasDream(cs[j]) { assert Kept(cs[j], names); }
    }
    D.DedupeWithSelected(ks, cs);
    var out := D.DedupeWith(ks, cs);
    forall j | 0 <= j < |out| ensures Kept(out[j], names) {
      D.DedupeWithOrigins(ks, cs, out[j]);
      var i :| 0 <= i < |cs| && D.OriginOf(cs[i]) == D.OriginOf(out[j]);
      assert Kept(cs[i], names);
    }
  }

  lemma {:induction false} DedupeEachKept(ks: D.Keys, batches: seq<seq<Candidate>>, names: seq<string>)
    requires forall i :: 0 <= i < |batches| ==> AllKept(batches[i], names)
    ensures AllKept(DedupeEach(ks, batches), names)
  {
    if batches != [] {
      var n := |batches| - 1;
      DedupeEachKept(ks, batches[..n], names);
      DedupeKept(ks, batches[n], names);
      KeptConcat(DedupeEach(ks, batches[..n]), D.DedupeWith(ks, batches[n]), names);
    }
  }

  lemma {:induction false} DedupeEachSize(ks: D.Keys, batches: seq<seq<Candidate>>)
    requires D.KeysValid(ks)
    ensures |DedupeEach(ks, batches)| <= |Concat(batches)|
  {
    if batches != [] {
      DedupeEachSize(ks, batches[..|batches| - 1]);
      D.DedupeWithSize(ks, batches[|batches| - 1]);
    }
  }

  lemma {:induction false} DedupeEachKeys(ks: D.Keys, batches: seq<seq<Candidate>>, k: string)
    requires D.KeysValid(ks)
    ensures k in MapSeq(DedupeEach(ks, batches), ks.base) <==> k in MapSeq(Concat(batches), ks.base)
  {
    if batches != [] {
      var n := |batches| - 1;
      DedupeEachKeys(ks, batches[..n], k);
      D.DedupeWithKeys(ks, batches[n], k);
      MapSeqAppend(DedupeEach(ks, batches[..n]), D.DedupeWith(ks, batches[n]), ks.base);
      MapSeqAppend(Concat(batches[..n]), batches[n], ks.base);
    }
  }

  lemma BatchesKept(files: seq<Recognized>, engine: Engine, stores: seq<Store>)
    ensures forall i :: 0 <= i < |files| ==> AllKept(Batches(files, engine, stores)[i], Names(files))
  {
    forall i | 0 <= i < |files| ensures AllKept(Batches(files, engine, stores)[i], Names(files)) {
      assert Names(files)[i] == files[i].name;
      FileCandidatesKept(files[i], engine, stores, Names(files));
    }
  }

  /**
   * No files give no candidates. Otherwise the result has at most as many
   * candidates as the pages yielded, each from one of the files, named,
   * with a confidence in 0..1, and selected only with a dream store id; and
   * the second deduplication keeps every group of every file: the result's
   * base keys are exactly those of all the pages' candidates.
   */
  lemma ExtractResidentsSpec(ks: D.Keys, files: seq<Recognized>, engine: Engine, stores: seq<Store>)
    requires D.KeysValid(ks)
    ensures files == [] ==> ExtractResidents(ks, files, engine, stores) == []
    ensures |ExtractResidents(ks, files, engine, stores)| <= |Concat(Batches(files, engine, stores))|
    ensures AllKept(ExtractResidents(ks, files, engine, stores), Names(files))
    ensures files != [] ==> forall k :: k in MapSeq(ExtractResidents(ks, files, engine, stores), ks.base) <==>
                                        k in MapSeq(Concat(Batches(files, engine, stores)), ks.base)
  {
    if files != [] {
      var batches := Batches(files, engine, stores);
      var all := DedupeEach(ks, batches);
      DedupeEachSize(ks, batches);
      D.DedupeWithSize(ks, all);
      BatchesKept(files, engine, stores);
      DedupeEachKept(ks, batches, Names(files));
      DedupeKept(ks, all, Names(files));
      forall k ensures k in MapSeq(D.DedupeWith(ks, all), ks.base) <==> k in MapSeq(Concat(batches), ks.base) {
        D.DedupeWithKeys(ks, all, k);
        DedupeEachKeys(ks, batches, k);
      }
    }
  }
}
