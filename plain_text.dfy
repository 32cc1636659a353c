/**
 * The plain-text extractor: the page text, line by line. A name-like line
 * that also names catalogue stores is a whole candidate; otherwise a
 * name-like line is remembered and the next store-like line becomes its
 * dream job.
 */
module PlainText {
  import opened Wrappers
  import opened Seqs
  import opened Strings
  import opened Types
  import opened ImportTypes
  import opened TextUtils
  import opened StoreMatching
  import opened NamePicking
  import opened Sorting

  // ---------------------------------------------------------------------------
  // The lines

  /** What `/\r?\n/` leaves of a piece that `'\n'` ends: a trailing carriage return goes too. */
  function DropCarriageReturn(p: string): string
  {
    if p != [] && p[|p| - 1] == '\r' then p[..|p| - 1] else p
  }

  function CleanPiece(p: string): string { Trim(DropCarriageReturn(p)) }

  predicate NonEmptyText(s: string) { s != [] }

  /** `text.split(/\r?\n/).map(l => l.trim()).filter(Boolean)` */
  function RawLines(text: string): seq<string>
  {
    Filter(MapSeq(Split(text, '\n'), CleanPiece), NonEmptyText)
  }

  /** A carriage return is whitespace, so dropping it before trimming changes nothing. */
  lemma CleanPieceIsTrim(p: string)
    ensures CleanPiece(p) == Trim(p)
  {
    if p != [] && p[|p| - 1] == '\r' {
      var q := p[..|p| - 1];
      assert p == q + ['\r'];
      TrimDropsSpaceEnd(q, '\r');
    }
  }

  /** Trimming ignores a trailing whitespace character. */
  lemma TrimDropsSpaceEnd(q: string, c: char)
    requires IsSpace(c)
    ensures Trim(q + [c]) == Trim(q)
  {
    TrimStartSnocSpace(q, c);
    if TrimStart(q) != [] {
      TrimEndSnocSpace(TrimStart(q), c);
    }
  }

  lemma {:induction false} TrimStartSnocSpace(q: string, c: char)
    requires IsSpace(c)
    ensures TrimStart(q + [c]) == if TrimStart(q) == [] then [] else TrimStart(q) + [c]
  {
    if q != [] {
      assert (q + [c])[1..] == q[1..] + [c];
      TrimStartSnocSpace(q[1..], c);
    }
  }

  lemma TrimEndSnocSpace(q: string, c: char)
    requires IsSpace(c)
    ensures TrimEnd(q + [c]) == TrimEnd(q)
  {
    assert (q + [c])[..|q + [c]| - 1] == q;
  }

  /**
   * The scanned lines are exactly the non-blank pieces between line breaks,
   * trimmed: none is empty, none has whitespace at either end, none holds a
   * line break, and (`\r\n` or `\n` alike) each is the trimmed piece.
   */
  lemma RawLinesSpec(text: string)
    ensures forall k :: 0 <= k < |RawLines(text)| ==>
              RawLines(text)[k] != [] && Trim(RawLines(text)[k]) == RawLines(text)[k] && '\n' !in RawLines(text)[k]
    ensures forall k :: 0 <= k < |Split(text, '\n')| && Trim(Split(text, '\n')[k]) != [] ==>
              Trim(Split(text, '\n')[k]) in RawLines(text)
    ensures forall l :: l in RawLines(text) ==> exists k :: 0 <= k < |Split(text, '\n')| && l == Trim(Split(text, '\n')[k])
  {
    RawLinesShape(text);
    forall l | l in RawLines(text) ensures exists k :: 0 <= k < |Split(text, '\n')| && l == Trim(Split(text, '\n')[k]) {
      RawLinesOrigin(text, l);
    }
  }

  lemma RawLinesShape(text: string)
    ensures forall k :: 0 <= k < |RawLines(text)| ==>
              RawLines(text)[k] != [] && Trim(RawLines(text)[k]) == RawLines(text)[k] && '\n' !in RawLines(text)[k]
    ensures forall k :: 0 <= k < |Split(text, '\n')| && Trim(Split(text, '\n')[k]) != [] ==>
              Trim(Split(text, '\n')[k]) in RawLines(text)
  {
    var pieces := Split(text, '\n');
    var cleaned := MapSeq(pieces, CleanPiece);
    assert RawLines(text) == Filter(cleaned, NonEmptyText);
    CleanedPieces(pieces);
    FilteredTrims(pieces, cleaned);
  }

  lemma RawLinesOrigin(text: string, l: string)
    requires l in RawLines(text)
    ensures exists k :: 0 <= k < |Split(text, '\n')| && l == Trim(Split(text, '\n')[k])
  {
    var pieces := Split(text, '\n');
    var cleaned := MapSeq(pieces, CleanPiece);
    FilterMembers(cleaned, NonEmptyText, l);
    var k :| 0 <= k < |cleaned| && cleaned[k] == l;
    CleanPieceIsTrim(pieces[k]);
  }

  /** The non-empty trimmed pieces, kept in order. */
  lemma FilteredTrims(pieces: seq<string>, cleaned: seq<string>)
    requires |cleaned| == |pieces| && forall k :: 0 <= k < |pieces| ==> cleaned[k] == Trim(pieces[k])
    requires forall k :: 0 <= k < |pieces| ==> '\n' !in pieces[k]
    ensures forall k :: 0 <= k < |Filter(cleaned, NonEmptyText)| ==>
              Filter(cleaned, NonEmptyText)[k] != [] && Trim(Filter(cleaned, NonEmptyText)[k]) == Filter(cleaned, NonEmptyText)[k]
              && '\n' !in Filter(cleaned, NonEmptyText)[k]
    ensures forall k :: 0 <= k < |pieces| && Trim(pieces[k]) != [] ==> Trim(pieces[k]) in Filter(cleaned, NonEmptyText)
    ensures forall l :: l in Filter(cleaned, NonEmptyText) ==> exists k :: 0 <= k < |pieces| && l == Trim(pieces[k])
  {
    var r := Filter(cleaned, NonEmptyText);
    forall k | 0 <= k < |r| ensures Trim(r[k]) == r[k] && '\n' !in r[k] {
      var j :| 0 <= j < |cleaned| && cleaned[j] == r[k];
      TrimTwice(pieces[j]);
      TrimKeeps(pieces[j]);
    }
    forall k | 0 <= k < |pieces| && Trim(pieces[k]) != [] ensures Trim(pieces[k]) in r {
      FilterMembers(cleaned, NonEmptyText, cleaned[k]);
    }
    forall l | l in r ensures exists k :: 0 <= k < |pieces| && l == Trim(pieces[k]) {
      var j :| 0 <= j < |cleaned| && cleaned[j] == l;
    }
  }

  lemma CleanedPieces(pieces: seq<string>)
    ensures forall k :: 0 <= k < |pieces| ==> MapSeq(pieces, CleanPiece)[k] == Trim(pieces[k])
  {
    forall k | 0 <= k < |pieces| ensures MapSeq(pieces, CleanPiece)[k] == Trim(pieces[k]) {
      CleanPieceIsTrim(pieces[k]);
    }
  }

  lemma TrimTwice(s: string)
    ensures Trim(Trim(s)) == Trim(s)
  {
    var t := Trim(s);
    if t != [] {
      TrimIdentity(t);
    }
  }

  lemma TrimKeeps(s: string)
    ensures forall c :: c in Trim(s) ==> c in s
  {
    var a := TrimSlice(s);
    forall c | c in Trim(s) ensures c in s {
      var i :| 0 <= i < |Trim(s)| && Trim(s)[i] == c;
      assert s[a + i] == c;
    }
  }

  // ---------------------------------------------------------------------------
  // One line

  /** `extractedName` when it passes `extractedName && isLikelyName(extractedName)`. */
  function NameOf(raw: string, stores: seq<Store>): Option<string>
  {
    var p := PickBestName([raw], Some(stores));
    if p.Some? && p.value.name != [] && IsLikelyName(p.value.name) then Some(p.value.name) else None
  }

  /** `/\bunemployed\b/i.test(raw)` */
  predicate HasUnemployedWord(raw: string)
  {
    PatternIndex(raw, ["unemployed"], true, 0) >= 0
  }

  /** The candidate a name line with embedded stores makes: dream the last hit, current the first of two or more. */
  function EmbeddedCandidate(raw: string, name: string, embedded: seq<Hit>, hasUnemployed: bool, sourceFileName: string): Candidate
    requires embedded != []
  {
    var dream := embedded[|embedded| - 1].store;
    var current := if |embedded| > 1 then Some(embedded[0].store) else None;
    Candidate(
      nameRaw := raw,
      currentJobRaw := if hasUnemployed then Some("UNEMPLOYED") else if current.Some? then Some(current.value.name) else None,
      dreamJobRaw := dream.name,
      name := name,
      currentJobStoreId := if !hasUnemployed && current.Some? then Some(current.value.id) else None,
      dreamJobStoreId := Some(dream.id),
      matchedCurrentStoreName := if !hasUnemployed && current.Some? then Some(current.value.name) else None,
      matchedStoreName := Some(dream.name),
      currentMatchConfidence := if !hasUnemployed && current.Some? then Some(0.9) else None,
      matchConfidence := 0.9,
      selected := name != [] && dream.id != [] && 0.9 >= AutoSelectMinConfidence,
      issues := [],
      sourceFileName := sourceFileName)
  }

  /** The candidate pairing the pending name with a store-like line. */
  function StoreLineCandidate(pendingText: string, name: string, raw: string, m: StoreMatch, sourceFileName: string): Candidate
  {
    Candidate(
      nameRaw := pendingText,
      currentJobRaw := None,
      dreamJobRaw := raw,
      name := name,
      currentJobStoreId := None,
      dreamJobStoreId := m.storeId,
      matchedCurrentStoreName := None,
      matchedStoreName := m.storeName,
      currentMatchConfidence := None,
      matchConfidence := m.confidence,
      selected := name != [] && Truthy(m.storeId) && m.confidence >= AutoSelectMinConfidence,
      issues := (if name == [] then [NameUnparsed] else []) + (if !Truthy(m.storeId) then [DreamUnmatched] else []),
      sourceFileName := sourceFileName)
  }

  /** `pendingName`, with its sanitized form, which the pairing uses. */
  datatype PendingName = PendingName(text: string, sanitized: string)

  /** The scan's variables: the pending name and the candidates so far. */
  datatype Scan = Scan(pending: Option<PendingName>, out: seq<Candidate>)

  /**
   * What one line offers the scan: the line, whether it is header or noise,
   * its name, the name's sanitized form, its embedded stores, whether it has
   * the word "unemployed", whether it is store-like, and its store match.
   */
  datatype LineView = LineView(raw: string, noise: bool, name: Option<string>, sanitized: string, embedded: seq<Hit>,
                               hasUnemployed: bool, storeLine: bool, storeMatch: StoreMatch)

  function View(raw: string, stores: seq<Store>): LineView
  {
    var name := NameOf(raw, stores);
    LineView(raw, LooksLikeHeaderOrNoise(raw), name, if name.Some? then SanitizeResidentName(name.value) else [],
             FindEmbeddedStores(raw, stores), HasUnemployedWord(raw), IsLikelyStoreName(raw), MatchStore(raw, stores))
  }

  /** `!pendingName` */
  predicate NoPending(p: Option<PendingName>) { p.None? || p.value.text == [] }

  /** One iteration of the line loop. */
  function Step(s: Scan, v: LineView, sourceFileName: string): Scan
  {
    if v.noise then s
    else if v.name.Some? then
      if v.embedded != [] then Scan(None, s.out + [EmbeddedCandidate(v.raw, v.name.value, v.embedded, v.hasUnemployed, sourceFileName)])
      else Scan(Some(PendingName(v.name.value, v.sanitized)), s.out)
    else if NoPending(s.pending) || !v.storeLine then s
    else Scan(None, s.out + [StoreLineCandidate(s.pending.value.text, s.pending.value.sanitized, v.raw, v.storeMatch, sourceFileName)])
  }

  function Run(views: seq<LineView>, sourceFileName: string): Scan
  {
    if views == [] then Scan(None, [])
    else
      var n := |views| - 1;
      Step(Run(views[..n], sourceFileName), views[n], sourceFileName)
  }

  function Views(raws: seq<string>, stores: seq<Store>): seq<LineView>
  {
    MapSeq(raws, r => View(r, stores))
  }

  /** `extractCandidatesFromPlainText`, as a function of its inputs. */
  function PlainTextCandidates(text: string, stores: seq<Store>, sourceFileName: string): seq<Candidate>
  {
    Run(Views(RawLines(text), stores), sourceFileName).out
  }

  lemma RunSnoc(views: seq<LineView>, i: nat, sourceFileName: string)
    requires i < |views|
    ensures Run(views[..i + 1], sourceFileName) == Step(Run(views[..i], sourceFileName), views[i], sourceFileName)
  {
    assert views[..i + 1][..i] == views[..i];
  }

  lemma RunLinesSnoc(raws: seq<string>, i: nat, stores: seq<Store>, sourceFileName: string)
    requires i < |raws|
    ensures Run(Views(raws[..i + 1], stores), sourceFileName)
            == Step(Run(Views(raws[..i], stores), sourceFileName), View(raws[i], stores), sourceFileName)
  {
    var views := Views(raws[..i + 1], stores);
    assert views[..i] == Views(raws[..i], stores);
    assert views[i] == View(raws[i], stores);
  }

  // ---------------------------------------------------------------------------
  // The loop

  /** A name line: one candidate when it names stores, else the new pending name. */
  method ScanNameLine(pendingName: Option<PendingName>, out: seq<Candidate>, raw: string, name: string, stores: seq<Store>,
                      sourceFileName: string, ghost v: LineView)
    returns (pendingName': Option<PendingName>, out': seq<Candidate>)
    requires v.raw == raw && !v.noise && v.name == Some(name) && v.embedded == FindEmbeddedStores(raw, stores)
    requires v.hasUnemployed == HasUnemployedWord(raw) && v.sanitized == SanitizeResidentName(name)
    ensures Scan(pendingName', out') == Step(Scan(pendingName, out), v, sourceFileName)
  {
    var embedded := FindEmbeddedStoresInText(raw, stores);
    if |embedded| > 0 {
      var hasUnemployed := HasUnemployedWord(raw);
      out' := out + [EmbeddedCandidate(raw, name, embedded, hasUnemployed, sourceFileName)];
      pendingName' := None;
      return;
    }
    pendingName' := Some(PendingName(name, SanitizeResidentName(name)));
    out' := out;
  }

  /** A line that is not a name: it pairs with a pending name when it is store-like. */
  method ScanOtherLine(pendingName: Option<PendingName>, out: seq<Candidate>, raw: string, stores: seq<Store>, sourceFileName: string,
                       ghost v: LineView)
    returns (pendingName': Option<PendingName>, out': seq<Candidate>)
    requires v.raw == raw && !v.noise && v.name.None? && v.storeLine == IsLikelyStoreName(raw) && v.storeMatch == MatchStore(raw, stores)
    ensures Scan(pendingName', out') == Step(Scan(pendingName, out), v, sourceFileName)
  {
    pendingName', out' := pendingName, out;
    if pendingName.None? || pendingName.value.text == [] {
      return;
    }
    if !IsLikelyStoreName(raw) {
      return;
    }
    var m := MatchStoreScan(raw, stores);
    out' := out + [StoreLineCandidate(pendingName.value.text, pendingName.value.sanitized, raw, m, sourceFileName)];
    pendingName' := None;
  }

  /** The body of the line loop. */
  method ScanLine(pendingName: Option<PendingName>, out: seq<Candidate>, raw: string, stores: seq<Store>, sourceFileName: string)
    returns (pendingName': Option<PendingName>, out': seq<Candidate>)
    ensures Scan(pendingName', out') == Step(Scan(pendingName, out), View(raw, stores), sourceFileName)
  {
    pendingName', out' := pendingName, out;
    if LooksLikeHeaderOrNoise(raw) {
      assert View(raw, stores).noise;
      return;
    }
    ghost var v := View(raw, stores);
    assert v.raw == raw && !v.noise && v.embedded == FindEmbeddedStores(raw, stores) && v.hasUnemployed == HasUnemployedWord(raw);
    assert v.storeLine == IsLikelyStoreName(raw) && v.storeMatch == MatchStore(raw, stores);
    var extractedName := NameOf(raw, stores);
    assert v.name == extractedName;
    if extractedName.Some? {
      assert v.sanitized == SanitizeResidentName(extractedName.value);
      pendingName', out' := ScanNameLine(pendingName, out, raw, extractedName.value, stores, sourceFileName, v);
    } else {
      pendingName', out' := ScanOtherLine(pendingName, out, raw, stores, sourceFileName, v);
    }
  }

  /** `extractCandidatesFromPlainText` */
  method ExtractCandidatesFromPlainText(text: string, stores: seq<Store>, sourceFileName: string) returns (out: seq<Candidate>)
    ensures out == PlainTextCandidates(text, stores, sourceFileName)
  {
    var rawLines := RawLines(text);
    out := ScanLines(rawLines, stores, sourceFileName);
  }

  /** The line loop, driving `pendingName`. */
  method ScanLines(rawLines: seq<string>, stores: seq<Store>, sourceFileName: string) returns (out: seq<Candidate>)
    ensures out == Run(Views(rawLines, stores), sourceFileName).out
  {
    out := [];
    var pendingName: Option<PendingName> := None;
    for i := 0 to |rawLines|
      invariant Scan(pendingName, out) == Run(Views(rawLines[..i], stores), sourceFileName)
    {
      RunLinesSnoc(rawLines, i, stores, sourceFileName);
      pendingName, out := ScanLine(pendingName, out, rawLines[i], stores, sourceFileName);
    }
    assert rawLines[..|rawLines|] == rawLines;
  }

  // ---------------------------------------------------------------------------
  // Properties

  /**
   * The name check after `pickBestName` never rejects anything: a picked
   * name is always a non-empty likely name, so a line has a name exactly
   * when `pickBestName` picks one.
   */
  lemma NameOfSpec(raw: string, stores: seq<Store>)
    ensures NameOf(raw, stores).Some? <==> PickBestName([raw], Some(stores)).Some?
    ensures NameOf(raw, stores).Some? ==>
              NameOf(raw, stores).value == PickBestName([raw], Some(stores)).value.name
              && NameOf(raw, stores).value != [] && IsLikelyName(NameOf(raw, stores).value)
              && LetterName(SanitizeResidentName(NameOf(raw, stores).value))
  {
    var p := PickBestName([raw], Some(stores));
    if p.Some? {
      PickBestNameShape([raw], Some(stores));
      LikelyNameNonEmpty(p.value.name);
    }
  }

  /** The facts every view carries. */
  ghost predicate ViewOk(v: LineView, stores: seq<Store>)
  {
    (v.name.Some? ==> v.name.value != [] && IsLikelyName(v.name.value) && v.sanitized == SanitizeResidentName(v.name.value)
                      && LetterName(v.sanitized))
    && (v.storeLine ==> IsLikelyStoreName(v.raw))
    && 0.0 <= v.storeMatch.confidence <= 1.0
    && (forall k :: 0 <= k < |v.embedded| ==> SoundHit(v.raw, stores, v.embedded[k]))
    && (forall j, k :: 0 <= j < k < |v.embedded| ==>
          v.embedded[j].store.id != v.embedded[k].store.id && v.embedded[j].index <= v.embedded[k].index)
  }

  lemma ViewSpec(raw: string, stores: seq<Store>)
    ensures ViewOk(View(raw, stores), stores)
    ensures View(raw, stores).raw == raw
  {
    ViewNameOk(raw, stores);
    ViewEmbeddedOk(raw, stores);
    ViewStoreOk(raw, stores);
  }

  lemma ViewNameOk(raw: string, stores: seq<Store>)
    ensures var v := View(raw, stores);
            v.name.Some? ==> v.name.value != [] && IsLikelyName(v.name.value) && v.sanitized == SanitizeResidentName(v.name.value)
                             && LetterName(v.sanitized)
  {
    NameOfSpec(raw, stores);
  }

  lemma ViewStoreOk(raw: string, stores: seq<Store>)
    ensures var v := View(raw, stores);
            (v.storeLine ==> IsLikelyStoreName(v.raw)) && 0.0 <= v.storeMatch.confidence <= 1.0
  {
  }

  lemma ViewEmbeddedOk(raw: string, stores: seq<Store>)
    ensures var v := View(raw, stores);
            (forall k :: 0 <= k < |v.embedded| ==> SoundHit(v.raw, stores, v.embedded[k]))
            && (forall j, k :: 0 <= j < k < |v.embedded| ==>
                  v.embedded[j].store.id != v.embedded[k].store.id && v.embedded[j].index <= v.embedded[k].index)
  {
    FindEmbeddedStoresSound(raw, stores);
    var e := FindEmbeddedStores(raw, stores);
    forall j, k | 0 <= j < k < |e| ensures e[j].index <= e[k].index {
      assert HitIndex(e[j]) <= HitIndex(e[k]);
    }
  }

  /**
   * What a line does to the scan. Header or noise lines do nothing. A name
   * line with embedded stores emits its candidate and clears the pending
   * name; one without replaces the pending name. Any other line emits the
   * store-line candidate exactly when a name is pending and the line is
   * store-like, and then clears the pending name.
   */
  lemma StepSpec(s: Scan, v: LineView, sourceFileName: string)
    ensures v.noise ==> Step(s, v, sourceFileName) == s
    ensures !v.noise && v.name.Some? && v.embedded != [] ==>
              Step(s, v, sourceFileName) == Scan(None, s.out + [EmbeddedCandidate(v.raw, v.name.value, v.embedded, v.hasUnemployed, sourceFileName)])
    ensures !v.noise && v.name.Some? && v.embedded == [] ==>
              Step(s, v, sourceFileName) == Scan(Some(PendingName(v.name.value, v.sanitized)), s.out)
    ensures !v.noise && v.name.None? ==>
              (Step(s, v, sourceFileName) != s <==> !NoPending(s.pending) && v.storeLine)
    ensures !v.noise && v.name.None? && !NoPending(s.pending) && v.storeLine ==>
              Step(s, v, sourceFileName) == Scan(None, s.out + [StoreLineCandidate(s.pending.value.text, s.pending.value.sanitized, v.raw, v.storeMatch, sourceFileName)])
  {
  }

  /**
   * The embedded-store candidate: the dream job is the last hit and the
   * current job the first when there are two or more, both at 0.9, with no
   * issues; the word "unemployed" replaces the current job by `UNEMPLOYED`
   * with no store; it is selected exactly when the dream store has an id.
   */
  lemma EmbeddedCandidateSpec(raw: string, name: string, embedded: seq<Hit>, hasUnemployed: bool, sourceFileName: string)
    requires embedded != [] && name != []
    ensures var c := EmbeddedCandidate(raw, name, embedded, hasUnemployed, sourceFileName);
            var dream := embedded[|embedded| - 1].store;
            c.nameRaw == raw && c.name == name && c.issues == [] && c.matchConfidence == 0.9
            && c.dreamJobRaw == dream.name && c.dreamJobStoreId == Some(dream.id) && c.matchedStoreName == Some(dream.name)
            && (hasUnemployed ==> c.currentJobRaw == Some("UNEMPLOYED") && c.currentJobStoreId.None?
                                  && c.matchedCurrentStoreName.None? && c.currentMatchConfidence.None?)
            && (!hasUnemployed && |embedded| >= 2 ==>
                  c.currentJobRaw == Some(embedded[0].store.name) && c.currentJobStoreId == Some(embedded[0].store.id)
                  && c.matchedCurrentStoreName == Some(embedded[0].store.name) && c.currentMatchConfidence == Some(0.9))
            && (!hasUnemployed && |embedded| == 1 ==>
                  c.currentJobRaw.None? && c.currentJobStoreId.None? && c.matchedCurrentStoreName.None? && c.currentMatchConfidence.None?)
            && (c.selected <==> dream.id != [])
            && c.sourceFileName == sourceFileName
  {
  }

  /** The store-line candidate: the sanitized pending name, the line's match, and an issue per missing part. */
  lemma StoreLineCandidateSpec(pendingText: string, name: string, raw: string, m: StoreMatch, sourceFileName: string)
    ensures var c := StoreLineCandidate(pendingText, name, raw, m, sourceFileName);
            c.nameRaw == pendingText && c.name == name && c.dreamJobRaw == raw
            && c.dreamJobStoreId == m.storeId && c.matchedStoreName == m.storeName && c.matchConfidence == m.confidence
            && c.currentJobRaw.None? && c.currentJobStoreId.None? && c.currentMatchConfidence.None?
            && (NameUnparsed in c.issues <==> name == []) && (DreamUnmatched in c.issues <==> !Truthy(m.storeId))
            && |c.issues| <= 2 && DreamUnparsed !in c.issues && CurrentUnmatched !in c.issues
            && (c.selected <==> name != [] && Truthy(m.storeId) && m.confidence >= AutoSelectMinConfidence)
            && c.sourceFileName == sourceFileName
  {
  }

  /** A pending name is the name of an earlier line. */
  ghost predicate PendingFrom(p: Option<PendingName>, views: seq<LineView>)
  {
    p.Some? ==> exists j :: 0 <= j < |views| && views[j].name == Some(p.value.text) && views[j].sanitized == p.value.sanitized
  }

  /** The candidate of one name line with embedded stores. */
  ghost predicate FromEmbedded(c: Candidate, v: LineView, sourceFileName: string)
  {
    !v.noise && v.name.Some? && v.embedded != []
    && c == EmbeddedCandidate(v.raw, v.name.value, v.embedded, v.hasUnemployed, sourceFileName)
  }

  /** The candidate pairing the name of line `vj` with the store-like text of a later line `vk`. */
  ghost predicate FromPair(c: Candidate, vj: LineView, vk: LineView, sourceFileName: string)
  {
    vj.name == Some(c.nameRaw) && !vk.noise && vk.name.None? && vk.storeLine
    && c == StoreLineCandidate(c.nameRaw, vj.sanitized, vk.raw, vk.storeMatch, sourceFileName)
  }

  /** Every candidate comes from one line, or from a name line and a later store line. */
  ghost predicate Sourced(c: Candidate, views: seq<LineView>, sourceFileName: string)
  {
    (exists k :: 0 <= k < |views| && FromEmbedded(c, views[k], sourceFileName))
    || (exists j, k :: 0 <= j < k < |views| && FromPair(c, views[j], views[k], sourceFileName))
  }

  ghost predicate AllSourced(out: seq<Candidate>, views: seq<LineView>, sourceFileName: string)
  {
    forall c :: c in out ==> Sourced(c, views, sourceFileName)
  }

  lemma SourcedExtend(c: Candidate, views: seq<LineView>, n: nat, sourceFileName: string)
    requires n <= |views| && Sourced(c, views[..n], sourceFileName)
    ensures Sourced(c, views, sourceFileName)
  {
    if exists k :: 0 <= k < n && FromEmbedded(c, views[..n][k], sourceFileName) {
      var k :| 0 <= k < n && FromEmbedded(c, views[..n][k], sourceFileName);
      assert views[..n][k] == views[k];
    } else {
      var j, k :| 0 <= j < k < n && FromPair(c, views[..n][j], views[..n][k], sourceFileName);
      assert views[..n][j] == views[j] && views[..n][k] == views[k];
    }
  }

  lemma AllSourcedExtend(out: seq<Candidate>, views: seq<LineView>, n: nat, sourceFileName: string)
    requires n < |views| && AllSourced(out, views[..n], sourceFileName)
    ensures AllSourced(out, views[..n + 1], sourceFileName)
  {
    forall c | c in out ensures Sourced(c, views[..n + 1], sourceFileName) {
      assert views[..n + 1][..n] == views[..n];
      SourcedExtend(c, views[..n + 1], n, sourceFileName);
    }
  }

  lemma StepPendingFrom(s: Scan, views: seq<LineView>, n: nat, sourceFileName: string)
    requires n < |views| && PendingFrom(s.pending, views[..n])
    ensures PendingFrom(Step(s, views[n], sourceFileName).pending, views[..n + 1])
  {
    var p := Step(s, views[n], sourceFileName).pending;
    if p.Some? {
      if p == s.pending {
        var j :| 0 <= j < n && views[..n][j].name == Some(s.pending.value.text) && views[..n][j].sanitized == s.pending.value.sanitized;
        assert views[..n + 1][j] == views[..n][j];
      } else {
        assert views[..n + 1][n] == views[n];
      }
    }
  }

  lemma StepSourced(s: Scan, views: seq<LineView>, n: nat, sourceFileName: string)
    requires n < |views| && PendingFrom(s.pending, views[..n]) && AllSourced(s.out, views[..n], sourceFileName)
    ensures AllSourced(Step(s, views[n], sourceFileName).out, views[..n + 1], sourceFileName)
    ensures |Step(s, views[n], sourceFileName).out| <= |s.out| + 1
  {
    var v := views[n];
    var out := Step(s, v, sourceFileName).out;
    StepSpec(s, v, sourceFileName);
    AllSourcedExtend(s.out, views, n, sourceFileName);
    assert views[..n + 1][n] == v;
    if out != s.out {
      var c := out[|out| - 1];
      assert out == s.out + [c];
      if v.name.Some? {
        assert FromEmbedded(c, views[..n + 1][n], sourceFileName);
      } else {
        var j :| 0 <= j < n && views[..n][j].name == Some(s.pending.value.text) && views[..n][j].sanitized == s.pending.value.sanitized;
        assert views[..n + 1][j] == views[..n][j];
        assert FromPair(c, views[..n + 1][j], views[..n + 1][n], sourceFileName);
      }
      assert Sourced(c, views[..n + 1], sourceFileName);
    }
  }

  /** What the scan keeps: the pending name comes from an earlier line, every candidate is sourced, one per line at most. */
  lemma {:induction false} RunInvariant(views: seq<LineView>, sourceFileName: string)
    ensures PendingFrom(Run(views, sourceFileName).pending, views)
    ensures AllSourced(Run(views, sourceFileName).out, views, sourceFileName)
    ensures |Run(views, sourceFileName).out| <= |views|
  {
    if views != [] {
      var n := |views| - 1;
      RunInvariant(views[..n], sourceFileName);
      StepPendingFrom(Run(views[..n], sourceFileName), views, n, sourceFileName);
      StepSourced(Run(views[..n], sourceFileName), views, n, sourceFileName);
      assert views[..n + 1] == views;
    }
  }

  /**
   * Every plain-text candidate: a name, a bounded confidence, the 0.9 current
   * confidence if any, at most the dream-match issue (and only without an
   * id), the selection rule; and either a catalogue store as the dream job
   * or a store-like dream text under a sanitized letter name.
   */
  ghost predicate WellFormed(c: Candidate, stores: seq<Store>, sourceFileName: string)
  {
    c.name != [] && 0.0 <= c.matchConfidence <= 1.0
    && (c.currentMatchConfidence.None? || c.currentMatchConfidence == Some(0.9))
    && (c.issues == [] || c.issues == [DreamUnmatched])
    && (DreamUnmatched in c.issues ==> !Truthy(c.dreamJobStoreId))
    && (c.selected <==> Truthy(c.dreamJobStoreId) && c.matchConfidence >= AutoSelectMinConfidence)
    && c.sourceFileName == sourceFileName
    && ((exists st :: st in stores && c.dreamJobStoreId == Some(st.id) && c.dreamJobRaw == st.name && c.matchedStoreName == Some(st.name))
        || (IsLikelyStoreName(c.dreamJobRaw) && LetterName(c.name) && c.name == SanitizeResidentName(c.nameRaw) && c.currentJobRaw.None?))
  }

  lemma EmbeddedWellFormed(c: Candidate, v: LineView, stores: seq<Store>, sourceFileName: string)
    requires ViewOk(v, stores) && FromEmbedded(c, v, sourceFileName)
    ensures WellFormed(c, stores, sourceFileName)
  {
    EmbeddedCandidateSpec(v.raw, v.name.value, v.embedded, v.hasUnemployed, sourceFileName);
    var dream := v.embedded[|v.embedded| - 1];
    assert SoundHit(v.raw, stores, dream);
  }

  lemma PairWellFormed(c: Candidate, vj: LineView, vk: LineView, stores: seq<Store>, sourceFileName: string)
    requires ViewOk(vj, stores) && ViewOk(vk, stores) && FromPair(c, vj, vk, sourceFileName)
    ensures WellFormed(c, stores, sourceFileName)
  {
    StoreLineCandidateSpec(c.nameRaw, vj.sanitized, vk.raw, vk.storeMatch, sourceFileName);
  }

  lemma SourcedWellFormed(c: Candidate, raws: seq<string>, stores: seq<Store>, sourceFileName: string)
    requires Sourced(c, Views(raws, stores), sourceFileName)
    ensures WellFormed(c, stores, sourceFileName)
  {
    var views := Views(raws, stores);
    if exists k :: 0 <= k < |views| && FromEmbedded(c, views[k], sourceFileName) {
      var k :| 0 <= k < |views| && FromEmbedded(c, views[k], sourceFileName);
      ViewSpec(raws[k], stores);
      EmbeddedWellFormed(c, views[k], stores, sourceFileName);
    } else {
      var j, k :| 0 <= j < k < |views| && FromPair(c, views[j], views[k], sourceFileName);
      ViewSpec(raws[j], stores);
      ViewSpec(raws[k], stores);
      PairWellFormed(c, views[j], views[k], stores, sourceFileName);
    }
  }

  /**
   * Every plain-text candidate comes from one scanned line with embedded
   * stores, or from a name line and a later store-like line, and is well
   * formed; there are no more candidates than scanned lines.
   */
  lemma PlainTextCandidatesSpec(text: string, stores: seq<Store>, sourceFileName: string)
    ensures |PlainTextCandidates(text, stores, sourceFileName)| <= |RawLines(text)|
    ensures AllSourced(PlainTextCandidates(text, stores, sourceFileName), Views(RawLines(text), stores), sourceFileName)
    ensures forall c :: c in PlainTextCandidates(text, stores, sourceFileName) ==> WellFormed(c, stores, sourceFileName)
  {
    var raws := RawLines(text);
    var views := Views(raws, stores);
    RunInvariant(views, sourceFileName);
    forall c | c in Run(views, sourceFileName).out ensures WellFormed(c, stores, sourceFileName) {
      SourcedWellFormed(c, raws, stores, sourceFileName);
    }
  }

  lemma SomeLineNonBlank(text: string)
    requires RawLines(text) != []
    ensures exists k :: 0 <= k < |Split(text, '\n')| && Trim(Split(text, '\n')[k]) != []
  {
    RawLinesSpec(text);
    assert RawLines(text)[0] in RawLines(text);
  }

  /** Blank text, or text of only blank lines, gives no candidates. */
  lemma BlankTextNoCandidates(text: string, stores: seq<Store>, sourceFileName: string)
    requires forall k :: 0 <= k < |Split(text, '\n')| ==> Trim(Split(text, '\n')[k]) == []
    ensures PlainTextCandidates(text, stores, sourceFileName) == []
  {
    if RawLines(text) != [] {
      SomeLineNonBlank(text);
      assert false;
    }
  }
}
