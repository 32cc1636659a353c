/**
 * Page geometry: one screenshot row is split into columns, either at large
 * horizontal gaps between fragments or at fixed fractions of the page width,
 * and fragments are clustered into rows by their top edge.
 */
module Layout {
  import opened Seqs
  import opened Strings
  import opened Sorting
  import opened ImportTypes

  function MaxInt(a: int, b: int): int { if a >= b then a else b }
  function MaxReal(a: real, b: real): real { if a >= b then a else b }
  function AbsInt(a: int): int { if a < 0 then -a else a }

  function X0(l: OcrLine): int { l.bbox.x0 }
  function Y0(l: OcrLine): int { l.bbox.y0 }

  // ---------------------------------------------------------------------
  // Columns
  // ---------------------------------------------------------------------

  datatype Column = Left | Middle | Right

  /** `Math.max(1, inferredWidth)` */
  function Width(inferredWidth: int): real
  {
    MaxInt(1, inferredWidth) as real
  }

  /** The fixed bands: below 42% of the width, below 72%, and the rest. */
  function ColumnForLine(line: OcrLine, inferredWidth: int): (c: Column)
    ensures c == Left <==> (X0(line) as real) < Width(inferredWidth) * 0.42
    ensures c == Middle <==> Width(inferredWidth) * 0.42 <= (X0(line) as real) < Width(inferredWidth) * 0.72
    ensures c == Right <==> Width(inferredWidth) * 0.72 <= (X0(line) as real)
  {
    var x := X0(line) as real;
    var w := Width(inferredWidth);
    if x < w * 0.42 then Left
    else if x < w * 0.72 then Middle
    else Right
  }

  predicate NonBlankLine(l: OcrLine) { Trim(l.text) != [] }

  /** `rowLines.filter(l => l.text.trim() !== '')` */
  function NonBlank(rowLines: seq<OcrLine>): seq<OcrLine>
  {
    Filter(rowLines, NonBlankLine)
  }

  /** The left edges, in ascending order. */
  function Xs(lines: seq<OcrLine>): seq<int>
  {
    MapSeq(SortBy(lines, X0), X0)
  }

  /** The distance from the left edge at `idx - 1` to the one at `idx`. */
  datatype Gap = Gap(idx: nat, gap: int)

  function Gaps(xs: seq<int>): seq<Gap>
  {
    if |xs| <= 1 then [] else seq(|xs| - 1, k requires 0 <= k < |xs| - 1 => Gap(k + 1, xs[k + 1] - xs[k]))
  }

  function GapThreshold(inferredWidth: int): real
  {
    MaxReal(70.0, inferredWidth as real * 0.12)
  }

  predicate IsBig(threshold: real, g: Gap) { (g.gap as real) >= threshold }
  function NegGap(g: Gap): int { -g.gap }

  /** The qualifying gaps, largest first (ties in position order). */
  function BigGaps(gaps: seq<Gap>, threshold: real): seq<Gap>
  {
    SortBy(Filter(gaps, g => IsBig(threshold, g)), NegGap)
  }

  function QualifyingGaps(lines: seq<OcrLine>, inferredWidth: int): seq<Gap>
  {
    BigGaps(Gaps(Xs(lines)), GapThreshold(inferredWidth))
  }

  /** Every qualifying gap is a gap of `xs` at or above the threshold, and conversely. */
  lemma BigGapsMembers(xs: seq<int>, threshold: real, g: Gap)
    ensures g in BigGaps(Gaps(xs), threshold) <==> g in Gaps(xs) && IsBig(threshold, g)
  {
    var f := Filter(Gaps(xs), g => IsBig(threshold, g));
    FilterMembers(Gaps(xs), g => IsBig(threshold, g), g);
    assert g in BigGaps(Gaps(xs), threshold) <==> g in multiset(f);
  }

  lemma GapIndexBounds(xs: seq<int>, threshold: real, g: Gap)
    requires g in BigGaps(Gaps(xs), threshold)
    ensures 0 < g.idx < |xs| && g.gap == xs[g.idx] - xs[g.idx - 1] && (g.gap as real) >= threshold
  {
    BigGapsMembers(xs, threshold, g);
  }

  /** The midpoint between the left edges on either side of a gap. */
  function SplitAt(xs: seq<int>, idx: int): real
    requires 0 < idx < |xs|
  {
    (xs[idx - 1] + xs[idx]) as real / 2.0
  }

  predicate Below(split: real, l: OcrLine) { (X0(l) as real) < split }
  predicate Between(lo: real, hi: real, l: OcrLine) { !Below(lo, l) && Below(hi, l) }
  predicate Beyond(lo: real, hi: real, l: OcrLine) { !Below(lo, l) && !Below(hi, l) }
  predicate InColumn(inferredWidth: int, c: Column, l: OcrLine) { ColumnForLine(l, inferredWidth) == c }

  function SplitTwoSpec(lines: seq<OcrLine>, split: real): seq<seq<OcrLine>>
  {
    [Filter(lines, l => Below(split, l)), Filter(lines, l => !Below(split, l))]
  }

  function SplitThreeSpec(lines: seq<OcrLine>, split1: real, split2: real): seq<seq<OcrLine>>
  {
    [Filter(lines, l => Below(split1, l)), Filter(lines, l => Between(split1, split2, l)),
     Filter(lines, l => Beyond(split1, split2, l))]
  }

  function SplitBandsSpec(lines: seq<OcrLine>, inferredWidth: int): seq<seq<OcrLine>>
  {
    [Filter(lines, l => InColumn(inferredWidth, Left, l)), Filter(lines, l => InColumn(inferredWidth, Middle, l)),
     Filter(lines, l => InColumn(inferredWidth, Right, l))]
  }

  function MinNat(a: nat, b: nat): nat { if a <= b then a else b }
  function MaxNat(a: nat, b: nat): nat { if a >= b then a else b }

  /** Every listed gap lies strictly inside `xs`. */
  predicate GapsInside(xs: seq<int>, big: seq<Gap>)
  {
    forall k :: 0 <= k < |big| ==> 0 < big[k].idx < |xs|
  }

  lemma BigGapsInside(xs: seq<int>, threshold: real)
    ensures GapsInside(xs, BigGaps(Gaps(xs), threshold))
  {
    var big := BigGaps(Gaps(xs), threshold);
    forall k | 0 <= k < |big| ensures 0 < big[k].idx < |xs| {
      GapIndexBounds(xs, threshold, big[k]);
    }
  }

  /** Three columns at the two first-listed gaps, two at a single one, else the bands. */
  function SplitByGaps(lines: seq<OcrLine>, xs: seq<int>, big: seq<Gap>, inferredWidth: int): seq<seq<OcrLine>>
    requires GapsInside(xs, big)
  {
    if |big| >= 2 then
      SplitThreeSpec(lines, SplitAt(xs, MinNat(big[0].idx, big[1].idx)), SplitAt(xs, MaxNat(big[0].idx, big[1].idx)))
    else if |big| == 1 then
      SplitTwoSpec(lines, SplitAt(xs, big[0].idx))
    else
      SplitBandsSpec(lines, inferredWidth)
  }

  /** The split of fragments that are already known to be non-blank. */
  function SplitLines(lines: seq<OcrLine>, inferredWidth: int): seq<seq<OcrLine>>
  {
    var xs := Xs(lines);
    var big := BigGaps(Gaps(xs), GapThreshold(inferredWidth));
    BigGapsInside(xs, GapThreshold(inferredWidth));
    SplitByGaps(lines, xs, big, inferredWidth)
  }

  /** `splitRowIntoColumns`, as a function of the row's fragments. */
  function SplitRow(rowLines: seq<OcrLine>, inferredWidth: int): seq<seq<OcrLine>>
  {
    var lines := NonBlank(rowLines);
    if lines == [] then [] else SplitLines(lines, inferredWidth)
  }

  // --- the loops -------------------------------------------------------

  method GapsScan(xs: seq<int>) returns (gaps: seq<Gap>)
    ensures gaps == Gaps(xs)
  {
    gaps := [];
    var i := 1;
    while i < |xs|
      invariant 1 <= i <= MaxInt(1, |xs|)
      invariant |gaps| == i - 1
      invariant forall k :: 0 <= k < i - 1 ==> gaps[k] == Gap(k + 1, xs[k + 1] - xs[k])
    {
      gaps := gaps + [Gap(i, xs[i] - xs[i - 1])];
      i := i + 1;
    }
  }

  method SplitTwo(lines: seq<OcrLine>, split: real) returns (cols: seq<seq<OcrLine>>)
    ensures cols == SplitTwoSpec(lines, split)
  {
    var left, right := [], [];
    for i := 0 to |lines|
      invariant left == Filter(lines[..i], l => Below(split, l))
      invariant right == Filter(lines[..i], l => !Below(split, l))
    {
      FilterSnoc(lines, l => Below(split, l), i);
      FilterSnoc(lines, l => !Below(split, l), i);
      if X0(lines[i]) as real < split {
        left := left + [lines[i]];
      } else {
        right := right + [lines[i]];
      }
    }
    assert lines[..|lines|] == lines;
    cols := [left, right];
  }

  method SplitThree(lines: seq<OcrLine>, split1: real, split2: real) returns (cols: seq<seq<OcrLine>>)
    ensures cols == SplitThreeSpec(lines, split1, split2)
  {
    var c1, c2, c3 := [], [], [];
    for i := 0 to |lines|
      invariant c1 == Filter(lines[..i], l => Below(split1, l))
      invariant c2 == Filter(lines[..i], l => Between(split1, split2, l))
      invariant c3 == Filter(lines[..i], l => Beyond(split1, split2, l))
    {
      FilterSnoc(lines, l => Below(split1, l), i);
      FilterSnoc(lines, l => Between(split1, split2, l), i);
      FilterSnoc(lines, l => Beyond(split1, split2, l), i);
      if X0(lines[i]) as real < split1 {
        c1 := c1 + [lines[i]];
      } else if X0(lines[i]) as real < split2 {
        c2 := c2 + [lines[i]];
      } else {
        c3 := c3 + [lines[i]];
      }
    }
    assert lines[..|lines|] == lines;
    cols := [c1, c2, c3];
  }

  method SplitBands(lines: seq<OcrLine>, inferredWidth: int) returns (cols: seq<seq<OcrLine>>)
    ensures cols == SplitBandsSpec(lines, inferredWidth)
  {
    var left, middle, right := [], [], [];
    for i := 0 to |lines|
      invariant left == Filter(lines[..i], l => InColumn(inferredWidth, Left, l))
      invariant middle == Filter(lines[..i], l => InColumn(inferredWidth, Middle, l))
      invariant right == Filter(lines[..i], l => InColumn(inferredWidth, Right, l))
    {
      FilterSnoc(lines, l => InColumn(inferredWidth, Left, l), i);
      FilterSnoc(lines, l => InColumn(inferredWidth, Middle, l), i);
      FilterSnoc(lines, l => InColumn(inferredWidth, Right, l), i);
      var col := ColumnForLine(lines[i], inferredWidth);
      if col == Left { left := left + [lines[i]]; }
      if col == Middle { middle := middle + [lines[i]]; }
      if col == Right { right := right + [lines[i]]; }
    }
    assert lines[..|lines|] == lines;
    cols := [left, middle, right];
  }

  /** `splitRowIntoColumns` */
  method SplitRowIntoColumns(rowLines: seq<OcrLine>, inferredWidth: int) returns (cols: seq<seq<OcrLine>>)
    ensures cols == SplitRow(rowLines, inferredWidth)
  {
    var lines := NonBlank(rowLines);
    if lines == [] {
      return [];
    }
    var sortedByX := SortBy(lines, X0);
    var xs := MapSeq(sortedByX, X0);
    var gaps := GapsScan(xs);
    var threshold := GapThreshold(inferredWidth);
    var big := BigGaps(gaps, threshold);
    if |big| >= 2 {
      GapIndexBounds(xs, threshold, big[0]);
      GapIndexBounds(xs, threshold, big[1]);
      var split1Idx := MinNat(big[0].idx, big[1].idx);
      var split2Idx := MaxNat(big[0].idx, big[1].idx);
      cols := SplitThree(lines, SplitAt(xs, split1Idx), SplitAt(xs, split2Idx));
    } else if |big| == 1 {
      GapIndexBounds(xs, threshold, big[0]);
      cols := SplitTwo(lines, SplitAt(xs, big[0].idx));
    } else {
      cols := SplitBands(lines, inferredWidth);
    }
  }

  // --- properties of the split -----------------------------------------

  /** Every fragment of every column, with multiplicity. */
  ghost function ColumnsMultiset(cols: seq<seq<OcrLine>>): multiset<OcrLine>
  {
    if cols == [] then multiset{} else multiset(cols[0]) + ColumnsMultiset(cols[1..])
  }

  lemma ColumnsMultisetTwo(cols: seq<seq<OcrLine>>)
    requires |cols| == 2
    ensures ColumnsMultiset(cols) == multiset(cols[0]) + multiset(cols[1])
  {
    assert cols[1..][0] == cols[1] && cols[1..][1..] == [];
    assert ColumnsMultiset(cols[1..]) == multiset(cols[1]) + ColumnsMultiset(cols[1..][1..]);
  }

  lemma ColumnsMultisetThree(cols: seq<seq<OcrLine>>)
    requires |cols| == 3
    ensures ColumnsMultiset(cols) == multiset(cols[0]) + multiset(cols[1]) + multiset(cols[2])
  {
    ColumnsMultisetTwo(cols[1..]);
    assert cols[1..][0] == cols[1] && cols[1..][1] == cols[2];
  }

  ghost predicate ColumnsOrdered(cols: seq<seq<OcrLine>>)
  {
    forall i, j, a, b :: 0 <= i < j < |cols| && a in cols[i] && b in cols[j] ==> X0(a) < X0(b)
  }

  lemma FilterEmptyIff<T>(s: seq<T>, p: T -> bool)
    ensures Filter(s, p) == [] <==> forall k :: 0 <= k < |s| ==> !p(s[k])
  {
    if Filter(s, p) == [] {
      forall k | 0 <= k < |s| ensures !p(s[k]) {
        FilterMembers(s, p, s[k]);
      }
    } else {
      FilterMembers(s, p, Filter(s, p)[0]);
    }
  }

  /** No columns exactly when every fragment is blank; otherwise two or three. */
  lemma SplitRowShape(rowLines: seq<OcrLine>, inferredWidth: int)
    ensures SplitRow(rowLines, inferredWidth) == [] <==> forall k :: 0 <= k < |rowLines| ==> Trim(rowLines[k].text) == []
    ensures SplitRow(rowLines, inferredWidth) != [] ==> |SplitRow(rowLines, inferredWidth)| in {2, 3}
  {
    FilterEmptyIff(rowLines, NonBlankLine);
    var lines := NonBlank(rowLines);
    if lines != [] {
      BigGapsInside(Xs(lines), GapThreshold(inferredWidth));
      SplitByGapsShape(lines, Xs(lines), QualifyingGaps(lines, inferredWidth), inferredWidth);
    }
  }

  lemma SplitByGapsShape(lines: seq<OcrLine>, xs: seq<int>, big: seq<Gap>, inferredWidth: int)
    requires GapsInside(xs, big)
    ensures |SplitByGaps(lines, xs, big, inferredWidth)| == if |big| == 1 then 2 else 3
  {
  }

  ghost predicate Partitions(cols: seq<seq<OcrLine>>, lines: seq<OcrLine>)
  {
    ColumnsMultiset(cols) == multiset(lines)
    && forall k :: 0 <= k < |cols| ==> Subsequence(cols[k], lines)
  }

  lemma TwoPartition(lines: seq<OcrLine>, s: real)
    ensures Partitions(SplitTwoSpec(lines, s), lines)
  {
    FilterTwoWay(lines, l => Below(s, l), l => !Below(s, l));
    FilterSubsequence(lines, l => Below(s, l));
    FilterSubsequence(lines, l => !Below(s, l));
    var cols := SplitTwoSpec(lines, s);
    ColumnsMultisetTwo(cols);
  }

  lemma ThreePartition(lines: seq<OcrLine>, s1: real, s2: real)
    ensures Partitions(SplitThreeSpec(lines, s1, s2), lines)
  {
    FilterThreeWay(lines, l => Below(s1, l), l => Between(s1, s2, l), l => Beyond(s1, s2, l));
    FilterSubsequence(lines, l => Below(s1, l));
    FilterSubsequence(lines, l => Between(s1, s2, l));
    FilterSubsequence(lines, l => Beyond(s1, s2, l));
    var cols := SplitThreeSpec(lines, s1, s2);
    ColumnsMultisetThree(cols);
  }

  lemma BandsPartition(lines: seq<OcrLine>, w: int)
    ensures Partitions(SplitBandsSpec(lines, w), lines)
  {
    FilterThreeWay(lines, l => InColumn(w, Left, l), l => InColumn(w, Middle, l), l => InColumn(w, Right, l));
    FilterSubsequence(lines, l => InColumn(w, Left, l));
    FilterSubsequence(lines, l => InColumn(w, Middle, l));
    FilterSubsequence(lines, l => InColumn(w, Right, l));
    var cols := SplitBandsSpec(lines, w);
    ColumnsMultisetThree(cols);
  }

  lemma SplitByGapsPartition(lines: seq<OcrLine>, xs: seq<int>, big: seq<Gap>, inferredWidth: int)
    requires GapsInside(xs, big)
    ensures Partitions(SplitByGaps(lines, xs, big, inferredWidth), lines)
  {
    if |big| >= 2 {
      ThreePartition(lines, SplitAt(xs, MinNat(big[0].idx, big[1].idx)), SplitAt(xs, MaxNat(big[0].idx, big[1].idx)));
    } else if |big| == 1 {
      TwoPartition(lines, SplitAt(xs, big[0].idx));
    } else {
      BandsPartition(lines, inferredWidth);
    }
  }

  /**
   * The columns partition the non-blank fragments: together they hold each
   * of them exactly as often as the row does, and each column keeps the row's
   * order.
   */
  lemma SplitRowPartition(rowLines: seq<OcrLine>, inferredWidth: int)
    ensures Partitions(SplitRow(rowLines, inferredWidth), NonBlank(rowLines))
  {
    if NonBlank(rowLines) != [] {
      var lines := NonBlank(rowLines);
      BigGapsInside(Xs(lines), GapThreshold(inferredWidth));
      SplitByGapsPartition(lines, Xs(lines), QualifyingGaps(lines, inferredWidth), inferredWidth);
    }
  }

  lemma TwoOrdered(lines: seq<OcrLine>, s: real)
    ensures ColumnsOrdered(SplitTwoSpec(lines, s))
  {
  }

  lemma ThreeOrdered(lines: seq<OcrLine>, s1: real, s2: real)
    ensures ColumnsOrdered(SplitThreeSpec(lines, s1, s2))
  {
  }

  lemma BandsOrdered(lines: seq<OcrLine>, w: int)
    ensures ColumnsOrdered(SplitBandsSpec(lines, w))
  {
  }

  lemma SplitByGapsOrdered(lines: seq<OcrLine>, xs: seq<int>, big: seq<Gap>, inferredWidth: int)
    requires GapsInside(xs, big)
    ensures ColumnsOrdered(SplitByGaps(lines, xs, big, inferredWidth))
  {
    if |big| >= 2 {
      ThreeOrdered(lines, SplitAt(xs, MinNat(big[0].idx, big[1].idx)), SplitAt(xs, MaxNat(big[0].idx, big[1].idx)));
    } else if |big| == 1 {
      TwoOrdered(lines, SplitAt(xs, big[0].idx));
    } else {
      BandsOrdered(lines, inferredWidth);
    }
  }

  /** Every left edge in an earlier column lies strictly left of every left edge in a later one. */
  lemma SplitRowOrdered(rowLines: seq<OcrLine>, inferredWidth: int)
    ensures ColumnsOrdered(SplitRow(rowLines, inferredWidth))
  {
    var lines := NonBlank(rowLines);
    if lines != [] {
      BigGapsInside(Xs(lines), GapThreshold(inferredWidth));
      SplitByGapsOrdered(lines, Xs(lines), QualifyingGaps(lines, inferredWidth), inferredWidth);
    }
  }

  /** The qualifying gaps come largest first. */
  lemma BigGapsLargest(xs: seq<int>, threshold: real)
    ensures forall k :: 0 <= k < |BigGaps(Gaps(xs), threshold)| ==> BigGaps(Gaps(xs), threshold)[k].gap <= BigGaps(Gaps(xs), threshold)[0].gap
    ensures forall k :: 1 <= k < |BigGaps(Gaps(xs), threshold)| ==> BigGaps(Gaps(xs), threshold)[k].gap <= BigGaps(Gaps(xs), threshold)[1].gap
  {
    SortByIsSorted(Filter(Gaps(xs), g => IsBig(threshold, g)), NegGap);
  }

  /** The left edges are ascending and each belongs to one of the fragments. */
  lemma XsFacts(lines: seq<OcrLine>)
    ensures |Xs(lines)| == |lines| == |SortBy(lines, X0)|
    ensures forall j, k :: 0 <= j < k < |lines| ==> Xs(lines)[j] <= Xs(lines)[k]
    ensures forall k :: 0 <= k < |lines| ==> SortBy(lines, X0)[k] in lines && X0(SortBy(lines, X0)[k]) == Xs(lines)[k]
  {
    var sorted := SortBy(lines, X0);
    SortByIsSorted(lines, X0);
    forall k | 0 <= k < |lines| ensures sorted[k] in lines {
      assert sorted[k] in multiset(sorted);
    }
  }

  lemma GapsDistinct(xs: seq<int>)
    ensures Distinct(Gaps(xs))
  {
    var gaps := Gaps(xs);
    forall i, j | 0 <= i < j < |gaps| ensures gaps[i] != gaps[j] {
      assert gaps[i].idx == i + 1 && gaps[j].idx == j + 1;
    }
  }

  /** Filtering and sorting a sequence without repetitions creates none. */
  lemma SortedFilterHeads<T>(s: seq<T>, p: T -> bool, key: T -> int)
    requires Distinct(s)
    requires |SortBy(Filter(s, p), key)| >= 2
    ensures SortBy(Filter(s, p), key)[0] != SortBy(Filter(s, p), key)[1]
  {
    var f := Filter(s, p);
    var r := SortBy(f, key);
    if r[0] == r[1] {
      RepeatedCount(r);
      FilterSubMultiset(s, p);
      DistinctCount(s, r[0]);
      assert false;
    }
  }

  lemma RepeatedCount<T>(r: seq<T>)
    requires |r| >= 2 && r[0] == r[1]
    ensures multiset(r)[r[0]] >= 2
  {
    assert r == [r[0], r[1]] + r[2..];
  }

  /** Two distinct gaps qualify when at least two qualify. */
  lemma BigGapsDistinct(xs: seq<int>, threshold: real)
    requires |BigGaps(Gaps(xs), threshold)| >= 2
    ensures BigGaps(Gaps(xs), threshold)[0].idx != BigGaps(Gaps(xs), threshold)[1].idx
  {
    var big := BigGaps(Gaps(xs), threshold);
    GapsDistinct(xs);
    SortedFilterHeads(Gaps(xs), g => IsBig(threshold, g), NegGap);
    BigGapsMembers(xs, threshold, big[0]);
    BigGapsMembers(xs, threshold, big[1]);
    GapsByIndex(xs, big[0], big[1]);
  }

  /** A gap is determined by its position. */
  lemma GapsByIndex(xs: seq<int>, g: Gap, h: Gap)
    requires g in Gaps(xs) && h in Gaps(xs)
    ensures g.idx == h.idx ==> g == h
  {
  }

  /** A qualifying gap separates two strictly increasing left edges. */
  lemma QualifyingRise(lines: seq<OcrLine>, inferredWidth: int, k: nat)
    requires k < |QualifyingGaps(lines, inferredWidth)|
    ensures 0 < QualifyingGaps(lines, inferredWidth)[k].idx < |Xs(lines)|
    ensures Xs(lines)[QualifyingGaps(lines, inferredWidth)[k].idx - 1] < Xs(lines)[QualifyingGaps(lines, inferredWidth)[k].idx]
  {
    GapIndexBounds(Xs(lines), GapThreshold(inferredWidth), QualifyingGaps(lines, inferredWidth)[k]);
  }

  lemma TwoNonEmpty(lines: seq<OcrLine>, i: nat)
    requires 0 < i < |Xs(lines)| && Xs(lines)[i - 1] < Xs(lines)[i]
    ensures forall k :: 0 <= k < 2 ==> SplitTwoSpec(lines, SplitAt(Xs(lines), i))[k] != []
  {
    var xs, sorted := Xs(lines), SortBy(lines, X0);
    var s := SplitAt(xs, i);
    XsFacts(lines);
    SplitAtBetween(xs, i);
    FilterMembers(lines, l => Below(s, l), sorted[i - 1]);
    FilterMembers(lines, l => !Below(s, l), sorted[i]);
  }

  lemma ThreeNonEmpty(lines: seq<OcrLine>, i1: nat, i2: nat)
    requires 0 < i1 < i2 < |Xs(lines)|
    requires Xs(lines)[i1 - 1] < Xs(lines)[i1] && Xs(lines)[i2 - 1] < Xs(lines)[i2]
    ensures forall k :: 0 <= k < 3 ==> SplitThreeSpec(lines, SplitAt(Xs(lines), i1), SplitAt(Xs(lines), i2))[k] != []
  {
    var xs, sorted := Xs(lines), SortBy(lines, X0);
    var s1, s2 := SplitAt(xs, i1), SplitAt(xs, i2);
    XsFacts(lines);
    SplitAtBetween(xs, i1);
    SplitAtBetween(xs, i2);
    assert xs[i1] <= xs[i2 - 1];
    var x0, x1, x2 := sorted[i1 - 1], sorted[i1], sorted[i2];
    assert Below(s1, x0) && Between(s1, s2, x1) && Beyond(s1, s2, x2);
    ThreeWitnesses(lines, s1, s2, x0, x1, x2);
  }

  /** One fragment in each of the three spans makes every column non-empty. */
  lemma ThreeWitnesses(lines: seq<OcrLine>, s1: real, s2: real, x0: OcrLine, x1: OcrLine, x2: OcrLine)
    requires x0 in lines && x1 in lines && x2 in lines
    requires Below(s1, x0) && Between(s1, s2, x1) && Beyond(s1, s2, x2)
    ensures forall k :: 0 <= k < 3 ==> SplitThreeSpec(lines, s1, s2)[k] != []
  {
    FilterMembers(lines, l => Below(s1, l), x0);
    FilterMembers(lines, l => Between(s1, s2, l), x1);
    FilterMembers(lines, l => Beyond(s1, s2, l), x2);
  }

  /** A split point lies strictly between the two edges it separates. */
  lemma SplitAtBetween(xs: seq<int>, i: nat)
    requires 0 < i < |xs| && xs[i - 1] < xs[i]
    ensures (xs[i - 1] as real) < SplitAt(xs, i) < (xs[i] as real)
  {
  }

  /** The sorted left edges rise strictly at `i`. */
  predicate RiseAt(xs: seq<int>, i: nat)
  {
    0 < i < |xs| && xs[i - 1] < xs[i]
  }

  /** The two widest gaps at a positive threshold, in left-to-right order, are distinct rises of the edges. */
  lemma ManyGapsIndices(xs: seq<int>, threshold: real) returns (i1: nat, i2: nat)
    requires threshold > 0.0 && |BigGaps(Gaps(xs), threshold)| >= 2
    ensures i1 == MinNat(BigGaps(Gaps(xs), threshold)[0].idx, BigGaps(Gaps(xs), threshold)[1].idx)
    ensures i2 == MaxNat(BigGaps(Gaps(xs), threshold)[0].idx, BigGaps(Gaps(xs), threshold)[1].idx)
    ensures i1 < i2 && RiseAt(xs, i1) && RiseAt(xs, i2)
  {
    var big := BigGaps(Gaps(xs), threshold);
    GapIndexBounds(xs, threshold, big[0]);
    GapIndexBounds(xs, threshold, big[1]);
    BigGapsDistinct(xs, threshold);
    i1, i2 := MinNat(big[0].idx, big[1].idx), MaxNat(big[0].idx, big[1].idx);
  }

  lemma SplitLinesManyGaps(lines: seq<OcrLine>, inferredWidth: int)
    requires |QualifyingGaps(lines, inferredWidth)| >= 2
    ensures |SplitLines(lines, inferredWidth)| == 3
    ensures forall k :: 0 <= k < 3 ==> SplitLines(lines, inferredWidth)[k] != []
  {
    var xs := Xs(lines);
    assert GapThreshold(inferredWidth) >= 70.0;
    var i1, i2 := ManyGapsIndices(xs, GapThreshold(inferredWidth));
    assert xs[i1 - 1] < xs[i1] && xs[i2 - 1] < xs[i2];
    ThreeNonEmpty(lines, i1, i2);
  }

  lemma SplitLinesOneGap(lines: seq<OcrLine>, inferredWidth: int)
    requires |QualifyingGaps(lines, inferredWidth)| == 1
    ensures |SplitLines(lines, inferredWidth)| == 2
    ensures forall k :: 0 <= k < 2 ==> SplitLines(lines, inferredWidth)[k] != []
  {
    QualifyingRise(lines, inferredWidth, 0);
    BigGapsInside(Xs(lines), GapThreshold(inferredWidth));
    TwoNonEmpty(lines, QualifyingGaps(lines, inferredWidth)[0].idx);
  }

  /**
   * One qualifying gap gives two non-empty columns, two or more give three;
   * with none the fixed bands apply.
   */
  lemma SplitRowGapColumns(rowLines: seq<OcrLine>, inferredWidth: int)
    requires NonBlank(rowLines) != []
    ensures |QualifyingGaps(NonBlank(rowLines), inferredWidth)| == 0 ==> SplitRow(rowLines, inferredWidth) == SplitBandsSpec(NonBlank(rowLines), inferredWidth)
    ensures |QualifyingGaps(NonBlank(rowLines), inferredWidth)| == 1 ==> |SplitRow(rowLines, inferredWidth)| == 2
    ensures |QualifyingGaps(NonBlank(rowLines), inferredWidth)| >= 2 ==> |SplitRow(rowLines, inferredWidth)| == 3
    ensures |QualifyingGaps(NonBlank(rowLines), inferredWidth)| >= 1 ==> forall k :: 0 <= k < |SplitRow(rowLines, inferredWidth)| ==> SplitRow(rowLines, inferredWidth)[k] != []
  {
    if |QualifyingGaps(NonBlank(rowLines), inferredWidth)| >= 2 {
      SplitLinesManyGaps(NonBlank(rowLines), inferredWidth);
    } else if |QualifyingGaps(NonBlank(rowLines), inferredWidth)| == 1 {
      SplitLinesOneGap(NonBlank(rowLines), inferredWidth);
    }
  }

  // ---------------------------------------------------------------------
  // Rows
  // ---------------------------------------------------------------------

  /** A row remembers the top edge of the fragment that opened it. */
  datatype Row = Row(y0: int, lines: seq<OcrLine>)

  function Height(l: OcrLine): int { MaxInt(0, l.bbox.y1 - l.bbox.y0) }
  predicate PositiveHeight(h: int) { h > 0 }
  function Identity(h: int): int { h }

  /** The positive heights, ascending. */
  function Heights(sorted: seq<OcrLine>): seq<int>
  {
    SortBy(Filter(MapSeq(sorted, Height), PositiveHeight), Identity)
  }

  /** The upper median of the positive heights, or 0 when there are none. */
  function MedianHeight(sorted: seq<OcrLine>): int
  {
    var h := Heights(sorted);
    if h == [] then 0 else h[|h| / 2]
  }

  /** `Math.round` for the non-negative values it is applied to here. */
  function Round(x: real): int { (x + 0.5).Floor }

  function ClusterThreshold(sorted: seq<OcrLine>): int
  {
    MaxInt(26, Round(MedianHeight(sorted) as real * 1.6))
  }

  /** One step of the row loop: join the last row or open a new one. */
  function Place(rows: seq<Row>, line: OcrLine, threshold: int): seq<Row>
  {
    if rows == [] then [Row(Y0(line), [line])]
    else
      var last := rows[|rows| - 1];
      if AbsInt(Y0(line) - last.y0) <= threshold then rows[..|rows| - 1] + [Row(last.y0, last.lines + [line])]
      else rows + [Row(Y0(line), [line])]
  }

  function Cluster(sorted: seq<OcrLine>, threshold: int): seq<Row>
  {
    if sorted == [] then [] else Place(Cluster(sorted[..|sorted| - 1], threshold), sorted[|sorted| - 1], threshold)
  }

  /** `groupLinesIntoRows`, as a function of the fragments. */
  function GroupRows(lines: seq<OcrLine>): seq<Row>
  {
    var sorted := SortBy(lines, Y0);
    Cluster(sorted, ClusterThreshold(sorted))
  }

  method GroupLinesIntoRows(lines: seq<OcrLine>) returns (rows: seq<Row>)
    ensures rows == GroupRows(lines)
  {
    var sorted := SortBy(lines, Y0);
    var clusterThreshold := ClusterThreshold(sorted);
    rows := ClusterScan(sorted, clusterThreshold);
  }

  /** The row loop of `groupLinesIntoRows`. */
  method ClusterScan(sorted: seq<OcrLine>, clusterThreshold: int) returns (rows: seq<Row>)
    ensures rows == Cluster(sorted, clusterThreshold)
  {
    rows := [];
    for i := 0 to |sorted|
      invariant rows == Cluster(sorted[..i], clusterThreshold)
    {
      assert sorted[..i + 1][..i] == sorted[..i];
      var line := sorted[i];
      if rows == [] {
        rows := [Row(Y0(line), [line])];
      } else {
        var last := rows[|rows| - 1];
        if AbsInt(Y0(line) - last.y0) <= clusterThreshold {
          rows := rows[..|rows| - 1] + [Row(last.y0, last.lines + [line])];
        } else {
          rows := rows + [Row(Y0(line), [line])];
        }
      }
    }
    assert sorted[..|sorted|] == sorted;
  }

  // --- properties of the rows ------------------------------------------

  /** The rows' fragments, row after row. */
  function AllLines(rows: seq<Row>): seq<OcrLine>
  {
    if rows == [] then [] else AllLines(rows[..|rows| - 1]) + rows[|rows| - 1].lines
  }

  lemma PlaceLines(rows: seq<Row>, line: OcrLine, threshold: int)
    ensures AllLines(Place(rows, line, threshold)) == AllLines(rows) + [line]
  {
    var r := Place(rows, line, threshold);
    if rows == [] {
      assert r[..0] == [];
    } else {
      assert r[..|r| - 1] == rows[..|rows| - 1] || r[..|r| - 1] == rows;
    }
  }

  lemma {:induction false} ClusterLines(sorted: seq<OcrLine>, threshold: int)
    ensures AllLines(Cluster(sorted, threshold)) == sorted
  {
    if sorted != [] {
      ClusterLines(sorted[..|sorted| - 1], threshold);
      PlaceLines(Cluster(sorted[..|sorted| - 1], threshold), sorted[|sorted| - 1], threshold);
    }
  }

  /** A row is opened by its first fragment and holds only fragments near its top edge. */
  ghost predicate RowsAnchored(rows: seq<Row>, threshold: int)
  {
    forall i :: 0 <= i < |rows| ==>
      rows[i].lines != [] && rows[i].y0 == Y0(rows[i].lines[0])
      && forall l :: l in rows[i].lines ==> AbsInt(Y0(l) - rows[i].y0) <= threshold
  }

  /** Successive rows open further apart than the threshold. */
  ghost predicate RowsApart(rows: seq<Row>, threshold: int)
  {
    forall i :: 0 < i < |rows| ==> AbsInt(rows[i].y0 - rows[i - 1].y0) > threshold
  }

  lemma PlaceKeeps(rows: seq<Row>, line: OcrLine, threshold: int)
    requires threshold >= 0 && RowsAnchored(rows, threshold) && RowsApart(rows, threshold)
    ensures RowsAnchored(Place(rows, line, threshold), threshold) && RowsApart(Place(rows, line, threshold), threshold)
  {
    if rows != [] {
      var last := rows[|rows| - 1];
      if AbsInt(Y0(line) - last.y0) <= threshold {
        var r := Place(rows, line, threshold);
        assert r[|r| - 1].lines[0] == last.lines[0];
        assert forall i :: 0 <= i < |rows| - 1 ==> r[i] == rows[i];
      }
    }
  }

  lemma {:induction false} ClusterKeeps(sorted: seq<OcrLine>, threshold: int)
    requires threshold >= 0
    ensures RowsAnchored(Cluster(sorted, threshold), threshold) && RowsApart(Cluster(sorted, threshold), threshold)
  {
    if sorted != [] {
      ClusterKeeps(sorted[..|sorted| - 1], threshold);
      PlaceKeeps(Cluster(sorted[..|sorted| - 1], threshold), sorted[|sorted| - 1], threshold);
    }
  }

  /** The median is 0 exactly when no fragment has positive height, and otherwise the height of one of them. */
  lemma MedianHeightFacts(sorted: seq<OcrLine>)
    ensures MedianHeight(sorted) >= 0
    ensures MedianHeight(sorted) == 0 <==> forall k :: 0 <= k < |sorted| ==> Height(sorted[k]) == 0
    ensures MedianHeight(sorted) > 0 ==> exists k :: 0 <= k < |sorted| && Height(sorted[k]) == MedianHeight(sorted)
  {
    var hs := MapSeq(sorted, Height);
    var f := Filter(hs, PositiveHeight);
    var h := Heights(sorted);
    FilterEmptyIff(hs, PositiveHeight);
    assert h == [] <==> f == [];
    if h != [] {
      var m := h[|h| / 2];
      assert m in multiset(f);
      FilterMembers(hs, PositiveHeight, m);
      var k :| 0 <= k < |hs| && hs[k] == m;
      assert Height(sorted[k]) == MedianHeight(sorted);
    }
  }

  /**
   * `groupLinesIntoRows`: the rows, read in order, are the fragments sorted
   * by top edge; the threshold is at least 26; each fragment lies within the
   * threshold of the top edge that opened its row; and successive rows open
   * more than the threshold apart.
   */
  lemma GroupRowsSpec(lines: seq<OcrLine>)
    ensures AllLines(GroupRows(lines)) == SortBy(lines, Y0)
    ensures ClusterThreshold(SortBy(lines, Y0)) >= 26
    ensures RowsAnchored(GroupRows(lines), ClusterThreshold(SortBy(lines, Y0)))
    ensures RowsApart(GroupRows(lines), ClusterThreshold(SortBy(lines, Y0)))
  {
    var sorted := SortBy(lines, Y0);
    ClusterLines(sorted, ClusterThreshold(sorted));
    ClusterKeeps(sorted, ClusterThreshold(sorted));
  }
}
