/**
 * The serverless OCR endpoint: request validation, and the assembly of
 * text lines with bounding boxes from the word hierarchy of a Google Vision
 * document annotation (pages, blocks, paragraphs, words, symbols).
 *
 * Coordinates are integers (Vision reports pixel vertices); a coordinate that is
 * not a finite number counts as 0. JSON parsing, the environment lookup and the
 * outbound request are inputs to the model, not part of it.
 */
module GoogleVisionOcr {
  import opened Wrappers
  import opened Seqs
  import opened Strings
  import opened ImportTypes

  // ---------------------------------------------------------------------
  // The annotation hierarchy (missing arrays and texts are empty)
  // ---------------------------------------------------------------------

  /** A JSON coordinate: a finite number, a non-finite number, or not a number at all. */
  datatype JsNumber = Finite(value: int) | NonFinite | NotNumber

  datatype Vertex = Vertex(x: JsNumber, y: JsNumber)

  /** The values of `property.detectedBreak.type`, and its absence. */
  datatype BreakType = NoBreak | Unknown | Space | SureSpace | EolSureSpace | Hyphen | LineBreak

  /** A symbol's text ("" when absent) and its detected break. */
  datatype Symbol = Symbol(text: string, breakType: BreakType)

  datatype Word = Word(symbols: seq<Symbol>, vertices: seq<Vertex>)

  datatype Paragraph = Paragraph(words: seq<Word>)

  datatype Block = Block(paragraphs: seq<Paragraph>)

  datatype Page = Page(blocks: seq<Block>)

  const ZeroBox: BBox := BBox(0, 0, 0, 0)

  // ---------------------------------------------------------------------
  // Boxes
  // ---------------------------------------------------------------------

  /** `clampNumber`: finite numbers pass, anything else becomes 0. */
  function ClampNumber(v: JsNumber): (r: int)
    ensures v.Finite? ==> r == v.value
    ensures !v.Finite? ==> r == 0
  {
    if v.Finite? then v.value else 0
  }

  predicate Ordered(b: BBox)
  {
    b.x0 <= b.x1 && b.y0 <= b.y1
  }

  /** `outer` contains `inner`. */
  predicate Encloses(outer: BBox, inner: BBox)
  {
    outer.x0 <= inner.x0 && outer.y0 <= inner.y0 && inner.x1 <= outer.x1 && inner.y1 <= outer.y1
  }

  /** The box spans the vertex `v`. */
  predicate Covers(b: BBox, v: Vertex)
  {
    b.x0 <= ClampNumber(v.x) <= b.x1 && b.y0 <= ClampNumber(v.y) <= b.y1
  }

  /**
   * `bboxFromVertices`: the bounding box of the clamped vertices, each of its
   * sides touching some vertex; all zeros when there are none.
   */
  function BboxFromVertices(vertices: seq<Vertex>): (r: BBox)
    ensures vertices == [] ==> r == ZeroBox
    ensures forall k :: 0 <= k < |vertices| ==> Covers(r, vertices[k])
    ensures vertices != [] ==>
      (exists k :: 0 <= k < |vertices| && ClampNumber(vertices[k].x) == r.x0)
      && (exists k :: 0 <= k < |vertices| && ClampNumber(vertices[k].y) == r.y0)
      && (exists k :: 0 <= k < |vertices| && ClampNumber(vertices[k].x) == r.x1)
      && (exists k :: 0 <= k < |vertices| && ClampNumber(vertices[k].y) == r.y1)
    ensures Ordered(r)
  {
    var xs := MapSeq(vertices, (v: Vertex) => ClampNumber(v.x));
    var ys := MapSeq(vertices, (v: Vertex) => ClampNumber(v.y));
    if |xs| == 0 then ZeroBox
    else BBox(MinOf(xs), MinOf(ys), MaxOf(xs), MaxOf(ys))
  }

  /** `mergeBboxes`: the smallest box containing both. */
  function MergeBboxes(a: BBox, b: BBox): (r: BBox)
    ensures Encloses(r, a) && Encloses(r, b)
    ensures forall c :: Encloses(c, a) && Encloses(c, b) ==> Encloses(c, r)
    ensures Ordered(a) && Ordered(b) ==> Ordered(r)
  {
    BBox(if a.x0 <= b.x0 then a.x0 else b.x0, if a.y0 <= b.y0 then a.y0 else b.y0,
         if a.x1 >= b.x1 then a.x1 else b.x1, if a.y1 >= b.y1 then a.y1 else b.y1)
  }

  /** Merging is commutative, associative and idempotent. */
  lemma MergeLaws(a: BBox, b: BBox, c: BBox)
    ensures MergeBboxes(a, b) == MergeBboxes(b, a)
    ensures MergeBboxes(MergeBboxes(a, b), c) == MergeBboxes(a, MergeBboxes(b, c))
    ensures MergeBboxes(a, a) == a
  {
  }

  /** The left fold of `mergeBboxes` over a line's word boxes; all zeros for none. */
  function MergeAll(boxes: seq<BBox>): BBox
  {
    if |boxes| == 0 then ZeroBox
    else if |boxes| == 1 then boxes[0]
    else MergeBboxes(MergeAll(boxes[..|boxes| - 1]), boxes[|boxes| - 1])
  }

  /** The merged box is the smallest one containing every word box. */
  lemma {:induction false} MergeAllEncloses(boxes: seq<BBox>, c: BBox)
    requires boxes != []
    ensures forall k :: 0 <= k < |boxes| ==> Encloses(MergeAll(boxes), boxes[k])
    ensures (forall k :: 0 <= k < |boxes| ==> Encloses(c, boxes[k])) ==> Encloses(c, MergeAll(boxes))
  {
    if |boxes| > 1 {
      var n := |boxes| - 1;
      MergeAllEncloses(boxes[..n], c);
      assert forall k :: 0 <= k < n ==> boxes[..n][k] == boxes[k];
    }
  }

  // ---------------------------------------------------------------------
  // Words
  // ---------------------------------------------------------------------

  /** `wordText`: the symbol texts concatenated. */
  function WordText(w: Word): string
  {
    SymbolsText(w.symbols)
  }

  function SymbolsText(symbols: seq<Symbol>): string
  {
    if symbols == [] then [] else symbols[0].text + SymbolsText(symbols[1..])
  }

  /** A word contributes to a line exactly when one of its symbols has text. */
  lemma {:induction false} WordTextEmptyIff(symbols: seq<Symbol>)
    ensures SymbolsText(symbols) == [] <==> forall k :: 0 <= k < |symbols| ==> symbols[k].text == []
  {
    if symbols != [] {
      WordTextEmptyIff(symbols[1..]);
      assert forall k :: 1 <= k < |symbols| ==> symbols[k] == symbols[1..][k - 1];
    }
  }

  /** The break type of the word's last symbol (none for a word without symbols). */
  function LastBreak(w: Word): BreakType
  {
    if |w.symbols| == 0 then NoBreak else w.symbols[|w.symbols| - 1].breakType
  }

  /** `br === 'LINE_BREAK' || br === 'EOL_SURE_SPACE'` */
  predicate EndsLine(w: Word)
  {
    LastBreak(w) == LineBreak || LastBreak(w) == EolSureSpace
  }

  function WordBox(w: Word): BBox
  {
    BboxFromVertices(w.vertices)
  }

  /** Every word of a paragraph sequence, in reading order. */
  function ParagraphsWords(ps: seq<Paragraph>): seq<Word>
  {
    if ps == [] then [] else ParagraphsWords(ps[..|ps| - 1]) + ps[|ps| - 1].words
  }

  function BlocksWords(bs: seq<Block>): seq<Word>
  {
    if bs == [] then [] else BlocksWords(bs[..|bs| - 1]) + ParagraphsWords(bs[|bs| - 1].paragraphs)
  }

  function PagesWords(pages: seq<Page>): seq<Word>
  {
    if pages == [] then [] else PagesWords(pages[..|pages| - 1]) + BlocksWords(pages[|pages| - 1].blocks)
  }

  // ---------------------------------------------------------------------
  // Line assembly, word by word (the state of the nested loops)
  // ---------------------------------------------------------------------

  /** The emitted lines, the text of the line being built and its box. */
  datatype Assembly = Assembly(out: seq<OcrLine>, text: string, box: Option<BBox>)

  const Start: Assembly := Assembly([], [], None)

  /** The line `flush` emits for a pending text and box: the trimmed text, when there is any. */
  function LineFrom(text: string, box: Option<BBox>): Option<OcrLine>
  {
    var t := Trim(text);
    if t == [] then None else Some(OcrLine(t, box.GetOr(ZeroBox)))
  }

  /** `flush`: emit the pending line, if any, and start a new one. */
  function Flushed(st: Assembly): Assembly
  {
    var line := LineFrom(st.text, st.box);
    Assembly(st.out + (if line.Some? then [line.value] else []), [], None)
  }

  /** One iteration of the innermost loop. */
  function Step(st: Assembly, w: Word): Assembly
  {
    var t := WordText(w);
    if !HasText(w) then st
    else
      var text := (if st.text != [] then st.text + " " else st.text) + t;
      var box := if st.box.Some? then MergeBboxes(st.box.value, WordBox(w)) else WordBox(w);
      var next := Assembly(st.out, text, Some(box));
      if EndsLine(w) then Flushed(next) else next
  }

  function Feed(st: Assembly, ws: seq<Word>): Assembly
  {
    if ws == [] then st else Step(Feed(st, ws[..|ws| - 1]), ws[|ws| - 1])
  }

  lemma {:induction false} FeedAppend(st: Assembly, a: seq<Word>, b: seq<Word>)
    ensures Feed(st, a + b) == Feed(Feed(st, a), b)
  {
    if b == [] {
      assert a + b == a;
    } else {
      var n := |b| - 1;
      assert (a + b)[..|a + b| - 1] == a + b[..n];
      assert (a + b)[|a + b| - 1] == b[n];
      FeedAppend(st, a, b[..n]);
    }
  }

  // ---------------------------------------------------------------------
  // Reference definition: lines as groups of words
  // ---------------------------------------------------------------------

  predicate HasText(w: Word)
  {
    WordText(w) != []
  }

  /**
   * The words with text, cut after every word that ends a line (see
   * `GroupsPartition` and `GroupsShape`).
   */
  function Groups(ws: seq<Word>): (r: seq<seq<Word>>)
    ensures |r| >= 1
  {
    if ws == [] then [[]]
    else
      var rest := Groups(ws[1..]);
      if !HasText(ws[0]) then rest
      else if EndsLine(ws[0]) then [[ws[0]]] + rest
      else [[ws[0]] + rest[0]] + rest[1..]
  }

  /** A group's texts joined by single spaces (the pending `currentText`). */
  function GroupText(g: seq<Word>): string
  {
    Join(MapSeq(g, WordText), ' ')
  }

  /** A group's merged box (the pending `currentBBox`). */
  function GroupBox(g: seq<Word>): Option<BBox>
  {
    if g == [] then None else Some(MergeAll(MapSeq(g, WordBox)))
  }

  /** The line a group of words becomes. */
  function LineOf(g: seq<Word>): Option<OcrLine>
  {
    LineFrom(GroupText(g), GroupBox(g))
  }

  /** The lines of an annotation. */
  function AnnotationLines(pages: seq<Page>): seq<OcrLine>
  {
    Collect(Groups(PagesWords(pages)), LineOf)
  }

  function Concat(gs: seq<seq<Word>>): seq<Word>
  {
    if gs == [] then [] else gs[0] + Concat(gs[1..])
  }

  /** Every group but the last is closed by a line-ending word. */
  predicate Closed(g: seq<seq<Word>>)
  {
    forall i :: 0 <= i < |g| - 1 ==> g[i] != [] && EndsLine(g[i][|g[i]| - 1])
  }

  /** No grouped word ends a line except the last word of a closed group. */
  predicate BreaksAtEnds(g: seq<seq<Word>>)
  {
    forall i, j :: 0 <= i < |g| && 0 <= j < |g[i]| && (i == |g| - 1 || j < |g[i]| - 1) ==> !EndsLine(g[i][j])
  }

  predicate AllHaveText(g: seq<seq<Word>>)
  {
    forall i, j :: 0 <= i < |g| && 0 <= j < |g[i]| ==> HasText(g[i][j])
  }

  predicate WordsHaveText(ws: seq<Word>)
  {
    forall j :: 0 <= j < |ws| ==> HasText(ws[j])
  }

  predicate WellGrouped(g: seq<seq<Word>>)
  {
    Closed(g) && BreaksAtEnds(g) && AllHaveText(g)
  }

  lemma ConsGroup(w: Word, g: seq<seq<Word>>)
    requires HasText(w) && EndsLine(w) && |g| >= 1 && WellGrouped(g)
    ensures WellGrouped([[w]] + g)
  {
    var h := [[w]] + g;
    forall i | 0 <= i < |h| - 1 ensures h[i] != [] && EndsLine(h[i][|h[i]| - 1]) {
      if i > 0 {
        assert h[i] == g[i - 1];
      }
    }
    forall i, j | 0 <= i < |h| && 0 <= j < |h[i]|
      ensures HasText(h[i][j]) && ((i == |h| - 1 || j < |h[i]| - 1) ==> !EndsLine(h[i][j]))
    {
      if i > 0 {
        assert h[i] == g[i - 1];
      }
    }
  }

  lemma HeadClosed(w: Word, g: seq<seq<Word>>)
    requires |g| >= 1 && Closed(g)
    ensures Closed([[w] + g[0]] + g[1..])
  {
    var h := [[w] + g[0]] + g[1..];
    forall i | 0 <= i < |h| - 1 ensures h[i] != [] && EndsLine(h[i][|h[i]| - 1]) {
      if i == 0 {
        assert g[0] != [] && EndsLine(g[0][|g[0]| - 1]);
        assert h[0][|h[0]| - 1] == g[0][|g[0]| - 1];
      } else {
        assert h[i] == g[i];
      }
    }
  }

  lemma HeadBreaks(w: Word, g: seq<seq<Word>>)
    requires !EndsLine(w) && |g| >= 1 && BreaksAtEnds(g)
    ensures BreaksAtEnds([[w] + g[0]] + g[1..])
  {
    var h := [[w] + g[0]] + g[1..];
    forall i, j | 0 <= i < |h| && 0 <= j < |h[i]| && (i == |h| - 1 || j < |h[i]| - 1)
      ensures !EndsLine(h[i][j])
    {
      if i == 0 {
        if j > 0 {
          assert h[0][j] == g[0][j - 1];
        }
      } else {
        assert h[i] == g[i];
      }
    }
  }

  lemma HeadText(w: Word, g: seq<seq<Word>>)
    requires HasText(w) && |g| >= 1 && AllHaveText(g)
    ensures AllHaveText([[w] + g[0]] + g[1..])
  {
    var h := [[w] + g[0]] + g[1..];
    forall i, j | 0 <= i < |h| && 0 <= j < |h[i]| ensures HasText(h[i][j]) {
      if i == 0 {
        if j > 0 {
          assert h[0][j] == g[0][j - 1];
        }
      } else {
        assert h[i] == g[i];
      }
    }
  }

  lemma HeadGroup(w: Word, g: seq<seq<Word>>)
    requires HasText(w) && !EndsLine(w) && |g| >= 1 && WellGrouped(g)
    ensures WellGrouped([[w] + g[0]] + g[1..])
  {
    HeadClosed(w, g);
    HeadBreaks(w, g);
    HeadText(w, g);
  }

  /** Each group but the last ends with a line-ending word; no other grouped word ends a line; all have text. */
  lemma {:induction false} GroupsShape(ws: seq<Word>)
    ensures WellGrouped(Groups(ws))
  {
    if ws != [] {
      GroupsShape(ws[1..]);
      var rest := Groups(ws[1..]);
      if HasText(ws[0]) {
        if EndsLine(ws[0]) {
          ConsGroup(ws[0], rest);
        } else {
          HeadGroup(ws[0], rest);
        }
      }
    }
  }

  lemma ConcatCons(x: seq<Word>, gs: seq<seq<Word>>)
    ensures Concat([x] + gs) == x + Concat(gs)
  {
    assert ([x] + gs)[1..] == gs;
  }

  lemma ConcatHead(w: Word, gs: seq<seq<Word>>)
    requires gs != []
    ensures Concat([[w] + gs[0]] + gs[1..]) == [w] + Concat(gs)
  {
    var l := [[w] + gs[0]] + gs[1..];
    assert l[1..] == gs[1..];
  }

  /** Read in order, the groups are exactly the words with text. */
  lemma {:induction false} GroupsPartition(ws: seq<Word>)
    ensures Concat(Groups(ws)) == Filter(ws, HasText)
  {
    if ws != [] {
      GroupsPartition(ws[1..]);
      var rest := Groups(ws[1..]);
      if HasText(ws[0]) {
        if EndsLine(ws[0]) {
          ConcatCons([ws[0]], rest);
        } else {
          ConcatHead(ws[0], rest);
        }
      }
    }
  }

  /** The groups after one more word, built from the back. */
  function SnocGroups(g: seq<seq<Word>>, w: Word): seq<seq<Word>>
    requires |g| >= 1
  {
    var n := |g| - 1;
    if !HasText(w) then g
    else if EndsLine(w) then g[..n] + [g[n] + [w]] + [[]]
    else g[..n] + [g[n] + [w]]
  }

  lemma {:induction false} GroupsSnoc(ws: seq<Word>, w: Word)
    ensures Groups(ws + [w]) == SnocGroups(Groups(ws), w)
  {
    if ws == [] {
      assert ws + [w] == [w];
      var g: seq<seq<Word>> := [[]];
      assert Groups([w][1..]) == g;
      assert g[..0] == [] && g[0] + [w] == [w];
      if HasText(w) {
        if EndsLine(w) {
          assert Groups([w]) == [[w]] + g;
        } else {
          assert [w] + g[0] == [w] && g[1..] == [];
          assert Groups([w]) == [[w] + g[0]] + g[1..];
        }
      }
    } else {
      var s := ws + [w];
      assert s[0] == ws[0] && s[1..] == ws[1..] + [w];
      GroupsSnoc(ws[1..], w);
      var rest := Groups(ws[1..]);
      if HasText(ws[0]) {
        if EndsLine(ws[0]) {
          SnocCons([ws[0]], rest, w);
        } else {
          SnocHead(ws[0], rest, w);
        }
      }
    }
  }

  lemma SnocCons(x: seq<Word>, g: seq<seq<Word>>, w: Word)
    requires |g| >= 1
    ensures SnocGroups([x] + g, w) == [x] + SnocGroups(g, w)
  {
    var n := |g| - 1;
    assert ([x] + g)[..n + 1] == [x] + g[..n];
    assert ([x] + g)[n + 1] == g[n];
  }

  lemma SnocHead(v: Word, g: seq<seq<Word>>, w: Word)
    requires |g| >= 1
    ensures SnocGroups([[v] + g[0]] + g[1..], w)
         == [[v] + SnocGroups(g, w)[0]] + SnocGroups(g, w)[1..]
  {
    var n := |g| - 1;
    var h := [[v] + g[0]] + g[1..];
    if HasText(w) {
      var tail := if EndsLine(w) then [[]] else [];
      assert SnocGroups(g, w) == g[..n] + [g[n] + [w]] + tail;
      assert SnocGroups(h, w) == h[..n] + [h[n] + [w]] + tail;
      if n > 0 {
        assert h[..n] == [[v] + g[0]] + g[1..n];
        assert h[n] == g[n];
        assert SnocGroups(g, w)[0] == g[0];
        assert SnocGroups(g, w)[1..] == g[1..n] + [g[n] + [w]] + tail;
      } else {
        assert h[..n] == [] && h[n] == [v] + g[0];
        assert SnocGroups(g, w)[0] == g[0] + [w];
        assert SnocGroups(g, w)[1..] == tail;
        assert [v] + g[0] + [w] == [v] + (g[0] + [w]);
      }
    }
  }

  /** The state once words have been fed: the closed groups' lines, and the open group pending. */
  function Pending(g: seq<seq<Word>>): Assembly
    requires |g| >= 1
  {
    var open := g[|g| - 1];
    Assembly(Collect(g[..|g| - 1], LineOf), GroupText(open), GroupBox(open))
  }

  /** The word-by-word assembly keeps the closed groups as lines and the open group pending. */
  lemma {:induction false} FeedGroups(ws: seq<Word>)
    ensures Feed(Start, ws) == Pending(Groups(ws))
  {
    if ws != [] {
      var n := |ws| - 1;
      var w := ws[n];
      assert ws == ws[..n] + [w];
      FeedGroups(ws[..n]);
      GroupsSnoc(ws[..n], w);
      GroupsShape(ws[..n]);
      var g := Groups(ws[..n]);
      assert WordsHaveText(g[|g| - 1]);
      StepPending(g, w);
    }
  }

  /** Appending a word with text to the open group extends its text by a space and the word, and merges its box. */
  lemma GrowGroup(open: seq<Word>, w: Word)
    requires HasText(w) && WordsHaveText(open)
    ensures GroupText(open + [w]) == (if GroupText(open) != [] then GroupText(open) + " " else GroupText(open)) + WordText(w)
    ensures GroupBox(open + [w]) == Some(if GroupBox(open).Some? then MergeBboxes(GroupBox(open).value, WordBox(w)) else WordBox(w))
  {
    var texts := MapSeq(open, WordText);
    var boxes := MapSeq(open, WordBox);
    MapSeqAppend(open, [w], WordText);
    MapSeqAppend(open, [w], WordBox);
    assert MapSeq([w], WordText) == [WordText(w)];
    assert MapSeq([w], WordBox) == [WordBox(w)];
    if open == [] {
      assert MapSeq(open + [w], WordText) == [WordText(w)];
      assert MapSeq(open + [w], WordBox) == [WordBox(w)];
    } else {
      JoinSnoc(texts, ' ', WordText(w));
      JoinPrefix(texts, ' ');
      assert GroupText(open) != [];
      assert (boxes + [WordBox(w)])[..|boxes|] == boxes;
    }
  }

  lemma StepPending(g: seq<seq<Word>>, w: Word)
    requires |g| >= 1
    requires WordsHaveText(g[|g| - 1])
    ensures Step(Pending(g), w) == Pending(SnocGroups(g, w))
  {
    if HasText(w) {
      if EndsLine(w) {
        StepPendingEnds(g, w);
      } else {
        StepPendingOpen(g, w);
      }
    }
  }

  /** A word with text that ends its line closes the open group. */
  lemma StepPendingEnds(g: seq<seq<Word>>, w: Word)
    requires |g| >= 1 && HasText(w) && EndsLine(w)
    requires WordsHaveText(g[|g| - 1])
    ensures Step(Pending(g), w) == Pending(SnocGroups(g, w))
  {
    var n := |g| - 1;
    var open2 := g[n] + [w];
    GrowGroup(g[n], w);
    var next := Assembly(Pending(g).out, GroupText(open2), GroupBox(open2));
    assert Step(Pending(g), w) == Flushed(next);
    var g2 := g[..n] + [open2] + [[]];
    assert g2[..|g2| - 1] == g[..n] + [open2];
    CollectSnoc(g[..n] + [open2], LineOf, n);
    assert (g[..n] + [open2])[..n] == g[..n];
    assert (g[..n] + [open2])[..n + 1] == g[..n] + [open2];
  }

  /** A word with text that does not end its line joins the open group. */
  lemma StepPendingOpen(g: seq<seq<Word>>, w: Word)
    requires |g| >= 1 && HasText(w) && !EndsLine(w)
    requires WordsHaveText(g[|g| - 1])
    ensures Step(Pending(g), w) == Pending(SnocGroups(g, w))
  {
    var n := |g| - 1;
    var open2 := g[n] + [w];
    GrowGroup(g[n], w);
    var next := Assembly(Pending(g).out, GroupText(open2), GroupBox(open2));
    assert Step(Pending(g), w) == next;
    var g2 := g[..n] + [open2];
    assert g2[..|g2| - 1] == g[..n];
  }

  /** The closing `flush` turns the open group into the last line. */
  lemma FlushPending(g: seq<seq<Word>>)
    requires |g| >= 1
    ensures Flushed(Pending(g)).out == Collect(g, LineOf)
  {
    var n := |g| - 1;
    CollectSnoc(g, LineOf, n);
    assert g[..n + 1] == g;
  }

  /** An emitted line has non-empty text without surrounding whitespace. */
  predicate TrimmedLine(l: OcrLine)
  {
    l.text != [] && !IsSpace(l.text[0]) && !IsSpace(l.text[|l.text| - 1])
  }

  /** Every emitted line has non-empty text without surrounding whitespace. */
  lemma AnnotationLinesTrimmed(pages: seq<Page>)
    ensures forall k :: 0 <= k < |AnnotationLines(pages)| ==> TrimmedLine(AnnotationLines(pages)[k])
  {
    var gs := Groups(PagesWords(pages));
    var lines := AnnotationLines(pages);
    CollectSpec(gs, LineOf);
    forall k | 0 <= k < |lines| ensures TrimmedLine(lines[k]) {
      var j :| 0 <= j < |gs| && LineOf(gs[j]) == Some(lines[k]);
      LineFromTrimmed(GroupText(gs[j]), GroupBox(gs[j]));
    }
  }

  lemma LineFromTrimmed(text: string, box: Option<BBox>)
    ensures LineFrom(text, box).Some? ==> TrimmedLine(LineFrom(text, box).value)
  {
  }

  /** A line's box contains the box of every word on it. */
  lemma LineBoxEncloses(g: seq<Word>, k: nat)
    requires LineOf(g).Some? && k < |g|
    ensures Encloses(LineOf(g).value.bbox, WordBox(g[k]))
  {
    var boxes := MapSeq(g, WordBox);
    MergeAllEncloses(boxes, ZeroBox);
    assert boxes[k] == WordBox(g[k]);
  }

  // ---------------------------------------------------------------------
  // The imperative assembler
  // ---------------------------------------------------------------------

  /** The mutable state `extractLinesFromFullTextAnnotation` keeps across its loops. */
  class LineBuilder {
    var out: seq<OcrLine>
    var currentText: string
    var currentBBox: Option<BBox>

    constructor ()
      ensures State() == Start
    {
      out := [];
      currentText := [];
      currentBBox := None;
    }

    function State(): Assembly
      reads this
    {
      Assembly(out, currentText, currentBBox)
    }

    /** `flush` */
    method Flush()
      modifies this
      ensures State() == Flushed(old(State()))
    {
      var text := Trim(currentText);
      if text != [] {
        out := out + [OcrLine(text, currentBBox.GetOr(ZeroBox))];
      }
      currentText := [];
      currentBBox := None;
    }

    /** The body of the innermost loop. */
    method AddWord(word: Word)
      modifies this
      ensures State() == Step(old(State()), word)
    {
      var wText := WordText(word);
      if wText == [] {
        return;
      }
      var wBBox := BboxFromVertices(word.vertices);
      if currentText != [] {
        currentText := currentText + " ";
      }
      currentText := currentText + wText;
      currentBBox := if currentBBox.Some? then Some(MergeBboxes(currentBBox.value, wBBox)) else Some(wBBox);
      var br := LastBreak(word);
      if br == LineBreak || br == EolSureSpace {
        Flush();
      }
    }
  }

  method FeedParagraph(b: LineBuilder, para: Paragraph)
    modifies b
    ensures b.State() == Feed(old(b.State()), para.words)
  {
    ghost var st := b.State();
    var ws := para.words;
    for i := 0 to |ws|
      invariant b.State() == Feed(st, ws[..i])
    {
      assert ws[..i + 1][..i] == ws[..i];
      b.AddWord(ws[i]);
    }
    assert ws[..|ws|] == ws;
  }

  method FeedBlock(b: LineBuilder, block: Block)
    modifies b
    ensures b.State() == Feed(old(b.State()), ParagraphsWords(block.paragraphs))
  {
    ghost var st := b.State();
    var ps := block.paragraphs;
    for i := 0 to |ps|
      invariant b.State() == Feed(st, ParagraphsWords(ps[..i]))
    {
      assert ps[..i + 1][..i] == ps[..i];
      assert ParagraphsWords(ps[..i + 1]) == ParagraphsWords(ps[..i]) + ps[i].words;
      FeedAppend(st, ParagraphsWords(ps[..i]), ps[i].words);
      FeedParagraph(b, ps[i]);
    }
    assert ps[..|ps|] == ps;
  }

  method FeedPage(b: LineBuilder, page: Page)
    modifies b
    ensures b.State() == Feed(old(b.State()), BlocksWords(page.blocks))
  {
    ghost var st := b.State();
    var bs := page.blocks;
    for i := 0 to |bs|
      invariant b.State() == Feed(st, BlocksWords(bs[..i]))
    {
      assert bs[..i + 1][..i] == bs[..i];
      assert BlocksWords(bs[..i + 1]) == BlocksWords(bs[..i]) + ParagraphsWords(bs[i].paragraphs);
      FeedAppend(st, BlocksWords(bs[..i]), ParagraphsWords(bs[i].paragraphs));
      FeedBlock(b, bs[i]);
    }
    assert bs[..|bs|] == bs;
  }

  /** `extractLinesFromFullTextAnnotation` */
  method ExtractLinesFromFullTextAnnotation(pages: seq<Page>) returns (out: seq<OcrLine>)
    ensures out == AnnotationLines(pages)
  {
    var b := new LineBuilder();
    for i := 0 to |pages|
      invariant b.State() == Feed(Start, PagesWords(pages[..i]))
    {
      assert pages[..i + 1][..i] == pages[..i];
      assert PagesWords(pages[..i + 1]) == PagesWords(pages[..i]) + BlocksWords(pages[i].blocks);
      FeedAppend(Start, PagesWords(pages[..i]), BlocksWords(pages[i].blocks));
      FeedPage(b, pages[i]);
    }
    assert pages[..|pages|] == pages;
    b.Flush();
    out := b.out;
    FeedGroups(PagesWords(pages));
    FlushPending(Groups(PagesWords(pages)));
  }

  // ---------------------------------------------------------------------
  // The request handler
  // ---------------------------------------------------------------------

  /** The request body once `JSON.parse` has run: absent, malformed, or JSON with an optional string field. */
  datatype Payload = NoBody | InvalidJson | Json(imageBase64: Option<string>)

  datatype HandlerError = MethodNotAllowed | NotConfigured | BadJson | ImageRequired | ImageTooLarge
  {
    function Status(): int
    {
      match this
      case MethodNotAllowed => 405
      case NotConfigured => 500
      case BadJson => 400
      case ImageRequired => 400
      case ImageTooLarge => 413
    }
  }

  /** Either an error reply, or the base64 content to send to Vision. */
  datatype Outcome = Fail(error: HandlerError) | Annotate(content: string)

  const MinBase64Length: nat := 32
  const MaxBase64Length: nat := 20000000
  const DataUrlMarker: string := "base64,"

  /** Drops everything up to and including the first `base64,`. */
  function StripDataUrl(s: string): (r: string)
    ensures IndexOf(s, DataUrlMarker) >= 0 ==> r == s[IndexOf(s, DataUrlMarker) + |DataUrlMarker|..]
    ensures IndexOf(s, DataUrlMarker) < 0 ==> r == s
  {
    var idx := IndexOf(s, DataUrlMarker);
    if idx >= 0 then s[idx + |DataUrlMarker|..] else s
  }

  /** `handler` up to the outbound request; `apiKey` is "" when the variable is unset. */
  function Handle(httpMethod: string, apiKey: string, payload: Payload): Outcome
  {
    if httpMethod != "POST" then Fail(MethodNotAllowed)
    else if apiKey == [] then Fail(NotConfigured)
    else if payload.InvalidJson? then Fail(BadJson)
    else
      var image := if payload.Json? then payload.imageBase64 else None;
      if image.None? || |image.value| < MinBase64Length then Fail(ImageRequired)
      else
        var content := StripDataUrl(image.value);
        if |content| > MaxBase64Length then Fail(ImageTooLarge) else Annotate(content)
  }

  /** The image field, when the payload has a string one. */
  function ImageField(payload: Payload): Option<string>
  {
    if payload.Json? then payload.imageBase64 else None
  }

  /**
   * The request goes out exactly for a POST with a configured key and a
   * string image of at least 32 characters whose content, the data-URL
   * prefix removed, is at most 20,000,000 characters; it carries that content.
   */
  lemma HandleAnnotateIff(httpMethod: string, apiKey: string, payload: Payload)
    ensures Handle(httpMethod, apiKey, payload).Annotate?
        <==> httpMethod == "POST" && apiKey != [] && ImageField(payload).Some?
             && |ImageField(payload).value| >= MinBase64Length
             && |StripDataUrl(ImageField(payload).value)| <= MaxBase64Length
    ensures Handle(httpMethod, apiKey, payload).Annotate? ==>
          Handle(httpMethod, apiKey, payload).content == StripDataUrl(ImageField(payload).value)
  {
  }

  /** The error replies, in the order the checks run. */
  lemma HandleErrors(httpMethod: string, apiKey: string, payload: Payload)
    ensures httpMethod != "POST" ==> Handle(httpMethod, apiKey, payload) == Fail(MethodNotAllowed)
    ensures httpMethod == "POST" && apiKey == [] ==> Handle(httpMethod, apiKey, payload) == Fail(NotConfigured)
    ensures httpMethod == "POST" && apiKey != [] && payload.InvalidJson? ==> Handle(httpMethod, apiKey, payload) == Fail(BadJson)
    ensures httpMethod == "POST" && apiKey != [] && !payload.InvalidJson?
            && (ImageField(payload).None? || |ImageField(payload).value| < MinBase64Length)
            ==> Handle(httpMethod, apiKey, payload) == Fail(ImageRequired)
    ensures Handle(httpMethod, apiKey, payload).Fail? ==> Handle(httpMethod, apiKey, payload).error.Status() in {400, 405, 413, 500}
  {
  }

  /** The length guard applies to the stripped content: a long data URL with a short payload passes. */
  lemma SizeGuardAfterStrip(prefix: string, body: string)
    requires |prefix| >= MaxBase64Length && IndexOf(prefix, DataUrlMarker) < 0 && prefix != []
    requires |body| <= MaxBase64Length && IndexOf(prefix + DataUrlMarker + body, DataUrlMarker) == |prefix|
    ensures Handle("POST", "key", Json(Some(prefix + DataUrlMarker + body))) == Annotate(body)
  {
    var s := prefix + DataUrlMarker + body;
    assert s[|prefix| + |DataUrlMarker|..] == body;
  }

  // ---------------------------------------------------------------------
  // Shaping the Vision reply
  // ---------------------------------------------------------------------

  datatype FullText = FullText(text: Option<string>, pages: seq<Page>)

  /** One entry of `responses`: its `error.message` ("" when absent) and its annotation. */
  datatype AnnotateResponse = AnnotateResponse(errorMessage: string, full: Option<FullText>)

  /** What the outbound request produced. */
  datatype VisionReply = Thrown(message: string) | NotOk(status: int, details: string) | Responses(responses: seq<AnnotateResponse>)

  datatype Reply = ErrorReply(status: int, details: string) | TextReply(text: string, lines: seq<OcrLine>)

  /** The handler after the request: 502 on a failed request or a Vision error, 500 on an exception. */
  function Respond(reply: VisionReply): Reply
  {
    match reply
    case Thrown(message) => ErrorReply(500, message)
    case NotOk(_, details) => ErrorReply(502, details)
    case Responses(responses) =>
      var first := if |responses| > 0 then responses[0] else AnnotateResponse("", None);
      if first.errorMessage != [] then ErrorReply(502, first.errorMessage)
      else if first.full.None? then TextReply("", [])
      else TextReply(first.full.value.text.GetOr(""), AnnotationLines(first.full.value.pages))
  }

  /** A successful reply carries the first response's lines; only the first response is read. */
  lemma RespondFirstOnly(first: AnnotateResponse, others: seq<AnnotateResponse>)
    ensures Respond(Responses([first] + others)) == Respond(Responses([first]))
    ensures first.errorMessage == [] && first.full.Some? ==>
      Respond(Responses([first] + others)).TextReply?
      && Respond(Responses([first] + others)).lines == AnnotationLines(first.full.value.pages)
  {
  }
}
