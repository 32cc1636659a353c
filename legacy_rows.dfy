/**
 * The row grouping of the older single-file extractor (`extract.ts`): blank
 * and noise fragments are dropped first, and the clustering threshold is
 * 1.6 times the median height, not rounded, and at least 26.
 */
module LegacyRows {
  import opened Seqs
  import opened Strings
  import opened Sorting
  import opened ImportTypes
  import opened Layout
  import opened LegacyText

  /** `l.text.trim() && !isNoise(l.text)` */
  predicate Kept(l: OcrLine) { Trim(l.text) != [] && !IsNoise(l.text) }

  /** The kept fragments by top edge, ties in input order. */
  function SortedKept(lines: seq<OcrLine>): seq<OcrLine>
  {
    SortBy(Filter(lines, Kept), Y0)
  }

  /** The upper median of the positive heights, or 30 when there are none. */
  function LegacyMedian(sorted: seq<OcrLine>): int
  {
    var m := MedianHeight(sorted);
    if m == 0 then 30 else m
  }

  /** `Math.max(26, medianHeight * 1.6)` */
  function RowThreshold(sorted: seq<OcrLine>): real
  {
    MaxReal(26.0, LegacyMedian(sorted) as real * 1.6)
  }

  /** `groupIntoRows`, as a function of the fragments. */
  function GroupIntoRows(lines: seq<OcrLine>): seq<Row>
  {
    var sorted := SortedKept(lines);
    Cluster(sorted, RowThreshold(sorted).Floor)
  }

  /** Between integers, `<= t` for a real `t` is `<=` its floor. */
  lemma FloorCompare(d: int, t: real)
    ensures d <= t.Floor <==> d as real <= t
  {
  }

  /**
   * The threshold: at least 26; 48 when no kept fragment has positive
   * height; otherwise 1.6 times the height of one of them, or 26 if larger.
   */
  lemma RowThresholdSpec(sorted: seq<OcrLine>)
    ensures RowThreshold(sorted) >= 26.0
    ensures (forall k :: 0 <= k < |sorted| ==> Height(sorted[k]) == 0) ==> RowThreshold(sorted) == 48.0
    ensures (exists k :: 0 <= k < |sorted| && Height(sorted[k]) > 0) ==>
      exists k :: 0 <= k < |sorted| && Height(sorted[k]) > 0 && RowThreshold(sorted) == MaxReal(26.0, Height(sorted[k]) as real * 1.6)
  {
    MedianHeightFacts(sorted);
  }

  /**
   * `groupIntoRows`: the rows, read in order, are the kept fragments sorted
   * by top edge; each fragment lies within the threshold of the top edge
   * that opened its row; successive rows open more than the threshold apart.
   */
  lemma GroupIntoRowsSpec(lines: seq<OcrLine>)
    ensures AllLines(GroupIntoRows(lines)) == SortedKept(lines)
    ensures multiset(AllLines(GroupIntoRows(lines))) == multiset(Filter(lines, Kept))
    ensures forall l :: l in AllLines(GroupIntoRows(lines)) ==> l in lines && Kept(l)
    ensures RowsAnchored(GroupIntoRows(lines), RowThreshold(SortedKept(lines)).Floor)
    ensures RowsApart(GroupIntoRows(lines), RowThreshold(SortedKept(lines)).Floor)
  {
    var sorted := SortedKept(lines);
    var t := RowThreshold(sorted);
    RowThresholdSpec(sorted);
    ClusterLines(sorted, t.Floor);
    ClusterKeeps(sorted, t.Floor);
    forall l | l in sorted ensures l in lines && Kept(l) {
      assert l in multiset(sorted);
    }
  }

  /** `groupIntoRows`: filter, sort, then the row loop. */
  method GroupIntoRowsScan(lines: seq<OcrLine>) returns (rows: seq<Row>)
    ensures rows == GroupIntoRows(lines)
  {
    var sorted := SortBy(Filter(lines, Kept), Y0);
    var threshold := RowThreshold(sorted);
    rows := ClusterScan(sorted, threshold.Floor);
  }
}
