/** Coarse separators win. */
module CascadeLaws {
  // What the two cascades do to a text, told from the text alone: it is cut at the first of the eight separators that
  // occurs, a part that is too large is cut as if it were the whole text, and small parts are merged around it.

  import opened Wrappers
  import opened Text
  import opened Cascade
  import opened CascadeProofs
  import opened CascadeBounds
  import RagChunker
  import CharChunker

  // ---------- the law ----------

  /** The chunks of a text, by either chunker. */
  function Chunks(style: Style, text: string, size: nat, overlap: nat): seq<string>
    requires size > 0
  {
    match style
    case RagStyle => Texts(RagChunker.TextPieces(text, RagChunker.ChunkingConfig(true, size, overlap)))
    case CharStyle => Texts(CharChunker.CharPieces(text, size, overlap))
  }

  /** The first separator that occurs, coarse ones first. */
  predicate CutsAt(text: string, sep: string) {
    if Contains(text, "\n\n") then sep == "\n\n"
    else if Contains(text, "\n") then sep == "\n"
    else if Contains(text, ". ") then sep == ". "
    else if Contains(text, "? ") then sep == "? "
    else if Contains(text, "! ") then sep == "! "
    else if Contains(text, "; ") then sep == "; "
    else if Contains(text, ", ") then sep == ", "
    else Contains(text, " ") && sep == " "
  }

  predicate Oversized(part: string, size: nat) {
    |TrimSpace(part)| > size
  }

  predicate AllSmall(parts: seq<string>, size: nat) {
    forall k :: 0 <= k < |parts| ==> !Oversized(parts[k], size)
  }

  /** The parts that hold something, trimmed. */
  function Held(parts: seq<string>): seq<string> {
    if parts == [] then []
    else (if TrimSpace(parts[0]) == "" then [] else [TrimSpace(parts[0])]) + Held(parts[1..])
  }

  /** What merging makes of parts. */
  function Merge(style: Style, parts: seq<string>, sep: string, size: nat, overlap: nat): seq<string> {
    Texts(PartsPieces(style, Held(parts), sep, size, overlap))
  }

  function FirstOversized(parts: seq<string>, size: nat): (k: nat)
    ensures k <= |parts| && AllSmall(parts[..k], size) && (k < |parts| ==> Oversized(parts[k], size))
  {
    if parts == [] || Oversized(parts[0], size) then 0
    else
      var k := FirstOversized(parts[1..], size);
      assert parts[..k + 1] == [parts[0]] + parts[1..][..k];
      k + 1
  }

  /** Small parts are merged; an oversized part is cut as if it were a whole text, and nothing is merged across it. */
  function PartChunks(style: Style, parts: seq<string>, sep: string, size: nat, overlap: nat): seq<string>
    requires size > 0
    decreases |parts|
  {
    var k := FirstOversized(parts, size);
    if k == |parts| then Merge(style, parts, sep, size, overlap)
    else
      Merge(style, parts[..k], sep, size, overlap)
      + Chunks(style, TrimSpace(parts[k]), size, overlap)
      + PartChunks(style, parts[k + 1..], sep, size, overlap)
  }

  // ---------- the part alone ----------

  lemma ChunksAre(style: Style, text: string, size: nat, overlap: nat)
    requires size > 0 && text != ""
    ensures UsableSeparators(SEPARATORS)
    ensures Chunks(style, text, size, overlap) == Texts(SplitPieces(style, text, SEPARATORS, 0, size, overlap))
  {
    SeparatorsAreValid();
  }

  /** Separators that do not occur are skipped. */
  lemma {:induction false} SkipTo(text: string, seps: seq<string>, depth: nat, to: nat, size: nat)
    requires UsableSeparators(seps) && depth <= to <= |seps| && |text| > size
    requires forall j :: depth <= j < to ==> !Contains(text, seps[j])
    ensures Plan(text, seps, depth, size) == Plan(text, seps, to, size)
    decreases |seps| - depth
  {
    if depth < to {
      SkipTo(text, seps, depth + 1, to, size);
    }
  }

  /** None of the first `n` separators occurs. */
  predicate FreeOf(text: string, n: nat)
    requires n <= |SEPARATORS|
  {
    forall j :: 0 <= j < n ==> !Contains(text, SEPARATORS[j])
  }

  predicate AllFree(parts: seq<string>, n: nat)
    requires n <= |SEPARATORS|
  {
    forall k :: 0 <= k < |parts| ==> FreeOf(parts[k], n)
  }

  lemma SliceFreeOf(text: string, i: nat, j: nat, n: nat)
    requires n <= |SEPARATORS| && i <= j <= |text| && FreeOf(text, n)
    ensures FreeOf(text[i..j], n)
  {
    forall d | 0 <= d < n ensures !Contains(text[i..j], SEPARATORS[d]) {
      SliceIsFree(text, i, j, SEPARATORS[d]);
    }
  }

  lemma PartsAreFree(text: string, d: nat)
    requires d < |SEPARATORS| && FreeOf(text, d) && SEPARATORS[d] != ""
    ensures AllFree(Split(text, SEPARATORS[d]), d + 1)
  {
    var parts := Split(text, SEPARATORS[d]);
    forall k | 0 <= k < |parts| ensures FreeOf(parts[k], d + 1) {
      var i, j := SplitPart(text, SEPARATORS[d], k);
      SliceFreeOf(text, i, j, d);
    }
  }

  /** An oversized part is cut exactly as it would be alone. */
  lemma AloneIsSame(style: Style, part: string, d: nat, size: nat, overlap: nat)
    requires size > 0 && d < |SEPARATORS| && FreeOf(part, d + 1) && Oversized(part, size)
    ensures UsableSeparators(SEPARATORS)
    ensures Texts(SplitPieces(style, TrimSpace(part), SEPARATORS, d + 1, size, overlap))
      == Chunks(style, TrimSpace(part), size, overlap)
  {
    SeparatorsAreValid();
    var i, j := TrimSlice(part);
    SliceFreeOf(part, i, j, d + 1);
    SkipTo(TrimSpace(part), SEPARATORS, 0, d + 1, size);
    ChunksAre(style, TrimSpace(part), size, overlap);
  }

  // ---------- the parts together ----------

  lemma {:induction false} HeldAppend(a: seq<string>, b: seq<string>)
    ensures Held(a + b) == Held(a) + Held(b)
  {
    if a == [] {
      assert a + b == b;
    } else {
      assert (a + b)[0] == a[0] && (a + b)[1..] == a[1..] + b;
      HeldAppend(a[1..], b);
      Assoc(if TrimSpace(a[0]) == "" then [] else [TrimSpace(a[0])], Held(a[1..]), Held(b));
    }
  }

  lemma HeldOne(part: string)
    ensures Held([part]) == if TrimSpace(part) == "" then [] else [TrimSpace(part)]
  {
    assert [part][1..] == [];
  }

  lemma FirstIs(parts: seq<string>, size: nat, k: nat)
    requires k <= |parts| && AllSmall(parts[..k], size) && (k < |parts| ==> Oversized(parts[k], size))
    ensures FirstOversized(parts, size) == k
  {
    var first := FirstOversized(parts, size);
    assert forall j :: 0 <= j < k ==> parts[..k][j] == parts[j];
    assert forall j :: 0 <= j < first ==> parts[..first][j] == parts[j];
  }

  lemma OversizedFirst(style: Style, before: seq<string>, part: string, after: seq<string>, sep: string, size: nat,
                       overlap: nat)
    requires size > 0 && AllSmall(before, size) && Oversized(part, size)
    ensures PartChunks(style, before + [part] + after, sep, size, overlap)
      == Merge(style, before, sep, size, overlap) + Chunks(style, TrimSpace(part), size, overlap)
         + PartChunks(style, after, sep, size, overlap)
  {
    var parts := before + [part] + after;
    assert parts[..|before|] == before && parts[|before|] == part && parts[|before| + 1..] == after;
    FirstIs(parts, size, |before|);
  }

  lemma SmallMerge(style: Style, parts: seq<string>, sep: string, size: nat, overlap: nat)
    requires size > 0 && AllSmall(parts, size)
    ensures PartChunks(style, parts, sep, size, overlap) == Merge(style, parts, sep, size, overlap)
  {
    assert parts[..|parts|] == parts;
    FirstIs(parts, size, |parts|);
  }

  lemma FlushIsMerge(style: Style, parts: seq<string>, sep: string, size: nat, overlap: nat)
    ensures FlushTexts(style, Held(parts), sep, size, overlap) == Merge(style, parts, sep, size, overlap)
  {
    if Held(parts) == [] {
      assert Groups([], sep, size, overlap, [], 0) == [];
    }
  }

  lemma AddSmall(before: seq<string>, part: string, size: nat)
    requires AllSmall(before, size) && !Oversized(part, size)
    ensures AllSmall(before + [part], size)
    ensures Held(before + [part]) == if TrimSpace(part) == "" then Held(before) else Held(before) + [TrimSpace(part)]
  {
    HeldAppend(before, [part]);
    HeldOne(part);
    assert Held(before) + [] == Held(before);
  }

  /** The recursion over the parts keeps to the law. */
  lemma {:induction false} RestIsPartChunks(style: Style, before: seq<string>, parts: seq<string>, d: nat, size: nat,
                                            overlap: nat)
    requires size > 0 && d < |SEPARATORS| && UsableSeparators(SEPARATORS)
    requires AllSmall(before, size) && AllFree(parts, d + 1)
    ensures RestTexts(style, parts, Held(before), SEPARATORS, d, size, overlap)
      == PartChunks(style, before + parts, SEPARATORS[d], size, overlap)
    decreases |parts|
  {
    var sep := SEPARATORS[d];
    FlushIsMerge(style, before, sep, size, overlap);
    if parts == [] {
      RestDone(style, Held(before), SEPARATORS, d, size, overlap);
      assert before + parts == before;
      SmallMerge(style, before, sep, size, overlap);
    } else {
      var part, rest := parts[0], parts[1..];
      assert before + parts == before + [part] + rest;
      if Oversized(part, size) {
        RestOversized(style, parts, Held(before), SEPARATORS, d, size, overlap);
        AloneIsSame(style, part, d, size, overlap);
        RestIsPartChunks(style, [], rest, d, size, overlap);
        assert [] + rest == rest;
        OversizedFirst(style, before, part, rest, sep, size, overlap);
      } else {
        AddSmall(before, part, size);
        RestIsPartChunks(style, before + [part], rest, d, size, overlap);
      }
    }
  }

  lemma SplitIsPartChunks(style: Style, text: string, d: nat, size: nat, overlap: nat)
    requires size > 0 && |text| > size && d < |SEPARATORS| && FreeOf(text, d) && Contains(text, SEPARATORS[d])
    ensures SEPARATORS[d] != ""
    ensures Chunks(style, text, size, overlap)
      == PartChunks(style, Split(text, SEPARATORS[d]), SEPARATORS[d], size, overlap)
  {
    SeparatorsAreValid();
    var parts := Split(text, SEPARATORS[d]);
    ChunksAre(style, text, size, overlap);
    SkipTo(text, SEPARATORS, 0, d, size);
    PartsAreFree(text, d);
    RestIsPartChunks(style, [], parts, d, size, overlap);
    assert [] + parts == parts;
  }

  lemma CutDepth(text: string, sep: string) returns (d: nat)
    requires CutsAt(text, sep)
    ensures d < |SEPARATORS| && SEPARATORS[d] == sep && FreeOf(text, d) && Contains(text, sep)
  {
    d := if sep == "\n\n" then 0 else if sep == "\n" then 1 else if sep == ". " then 2 else if sep == "? " then 3
         else if sep == "! " then 4 else if sep == "; " then 5 else if sep == ", " then 6 else 7;
  }

  /** A text that is too large is cut at the first separator that occurs, and its parts as the law says. */
  lemma CoarseFirst(style: Style, text: string, sep: string, size: nat, overlap: nat)
    requires size > 0 && |text| > size && CutsAt(text, sep)
    ensures sep != ""
    ensures Chunks(style, text, size, overlap) == PartChunks(style, Split(text, sep), sep, size, overlap)
  {
    var d := CutDepth(text, sep);
    SplitIsPartChunks(style, text, d, size, overlap);
  }

  /** A text within the size stays whole, and one without any separator is cut by force. */
  lemma NothingToCutAt(style: Style, text: string, size: nat, overlap: nat)
    requires size > 0 && text != ""
    ensures |text| <= size ==> Chunks(style, text, size, overlap) == [text]
    ensures |text| > size && (forall sep :: !CutsAt(text, sep)) ==>
      Chunks(style, text, size, overlap) == Texts(ForcedPieces(text, size, overlap, 0))
  {
    ChunksAre(style, text, size, overlap);
    WholeTexts(style, text, SEPARATORS, 0, size, overlap);
    if |text| > size && forall sep :: !CutsAt(text, sep) {
      NoneOccurs(text);
      SkipTo(text, SEPARATORS, 0, |SEPARATORS|, size);
      WholeTexts(style, text, SEPARATORS, |SEPARATORS|, size, overlap);
    }
  }

  lemma NoneOccurs(text: string)
    requires forall sep :: !CutsAt(text, sep)
    ensures FreeOf(text, |SEPARATORS|)
  {
    assert !CutsAt(text, "\n\n") && !CutsAt(text, "\n") && !CutsAt(text, ". ") && !CutsAt(text, "? ");
    assert !CutsAt(text, "! ") && !CutsAt(text, "; ") && !CutsAt(text, ", ") && !CutsAt(text, " ");
  }

  /** Whatever is around it, an oversized part is cut as alone, and what is before and behind it apart from it. */
  lemma {:induction false} OversizedApart(style: Style, before: seq<string>, part: string, after: seq<string>,
                                          sep: string, size: nat, overlap: nat)
    requires size > 0 && Oversized(part, size)
    ensures PartChunks(style, before + [part] + after, sep, size, overlap)
      == PartChunks(style, before, sep, size, overlap) + Chunks(style, TrimSpace(part), size, overlap)
         + PartChunks(style, after, sep, size, overlap)
    decreases |before|
  {
    var k := FirstOversized(before, size);
    if k == |before| {
      assert before[..k] == before;
      SmallMerge(style, before, sep, size, overlap);
      OversizedFirst(style, before, part, after, sep, size, overlap);
    } else {
      var rest := before[k + 1..];
      assert before == before[..k] + [before[k]] + rest;
      assert before + [part] + after == before[..k] + [before[k]] + (rest + [part] + after);
      OversizedApart(style, rest, part, after, sep, size, overlap);
      OversizedFirst(style, before[..k], before[k], rest + [part] + after, sep, size, overlap);
      var head := Merge(style, before[..k], sep, size, overlap) + Chunks(style, TrimSpace(before[k]), size, overlap);
      var p, q := PartChunks(style, rest, sep, size, overlap), Chunks(style, TrimSpace(part), size, overlap);
      Assoc(head, p + q, PartChunks(style, after, sep, size, overlap));
      Assoc(head, p, q);
    }
  }

  // ---------- boundaries ----------

  predicate EndsOversized(parts: seq<string>, size: nat) {
    parts != [] && Oversized(parts[|parts| - 1], size)
  }

  predicate StartsOversized(parts: seq<string>, size: nat) {
    parts != [] && Oversized(parts[0], size)
  }

  /** Beside an oversized part the plans of both sides are independent. */
  lemma {:induction false} PlanApart(a: seq<string>, b: seq<string>, good: seq<string>, seps: seq<string>, depth: nat,
                                     size: nat)
    requires UsableSeparators(seps) && depth < |seps| && (EndsOversized(a, size) || StartsOversized(b, size))
    ensures PlanParts(a + b, good, seps, depth, size)
      == PlanParts(a, good, seps, depth, size) + PlanParts(b, [], seps, depth, size)
    decreases |a|
  {
    if a == [] {
      assert a + b == b;
      var rest := PlanParts(b[1..], [], seps, depth, size);
      var own := Plan(TrimSpace(b[0]), seps, depth + 1, size);
      assert PlanParts(b, [], seps, depth, size) == [] + own + rest;
      assert [] + own == own;
      Assoc(Flush(good, seps[depth]), own, rest);
    } else {
      var part, rest := TrimSpace(a[0]), a[1..];
      assert (a + b)[0] == a[0] && (a + b)[1..] == rest + b;
      if |part| > size {
        var head := Flush(good, seps[depth]) + Plan(part, seps, depth + 1, size);
        if rest == [] {
          assert rest + b == b;
          assert PlanParts(rest, [], seps, depth, size) == [] && head + [] == head;
        } else {
          PlanApart(rest, b, [], seps, depth, size);
          Assoc(head, PlanParts(rest, [], seps, depth, size), PlanParts(b, [], seps, depth, size));
        }
      } else {
        PlanApart(rest, b, if part == "" then good else good + [part], seps, depth, size);
      }
    }
  }

  /** The pieces behind the chunks. */
  function PiecesOf(style: Style, text: string, size: nat, overlap: nat): seq<Piece>
    requires size > 0
  {
    match style
    case RagStyle => RagChunker.TextPieces(text, RagChunker.ChunkingConfig(true, size, overlap))
    case CharStyle => CharChunker.CharPieces(text, size, overlap)
  }

  /** The pieces of some parts of a text. */
  function SidePieces(style: Style, parts: seq<string>, d: nat, size: nat, overlap: nat): seq<Piece>
    requires size > 0 && d < |SEPARATORS| && UsableSeparators(SEPARATORS)
  {
    Pieces(style, PlanParts(parts, [], SEPARATORS, d, size), size, overlap)
  }

  lemma SideKeeps(style: Style, parts: seq<string>, d: nat, size: nat, overlap: nat)
    requires size > 0 && d < |SEPARATORS| && ValidSeparators(SEPARATORS)
    ensures Kept(FreshText(SidePieces(style, parts, d, size, overlap))) == Kept(Concat(parts))
  {
    PlanPartsKeeps(parts, [], SEPARATORS, d, size);
    NothingBefore(Kept(Concat(parts)));
    PlanPartsAreGood(parts, [], SEPARATORS, d, size);
    PiecesKeep(style, PlanParts(parts, [], SEPARATORS, d, size), SEPARATORS, size, overlap);
  }

  lemma SideChained(style: Style, parts: seq<string>, d: nat, size: nat, overlap: nat)
    requires size > 0 && d < |SEPARATORS| && ValidSeparators(SEPARATORS)
    ensures Chained(SidePieces(style, parts, d, size, overlap), None, SEPARATORS, overlap)
  {
    PlanPartsAreGood(parts, [], SEPARATORS, d, size);
    PiecesShape(style, PlanParts(parts, [], SEPARATORS, d, size), SEPARATORS, size, overlap, 2);
  }

  lemma PlanIsParts(text: string, d: nat, size: nat)
    requires |text| > size && d < |SEPARATORS| && UsableSeparators(SEPARATORS)
    requires FreeOf(text, d) && Contains(text, SEPARATORS[d])
    ensures Plan(text, SEPARATORS, 0, size) == PlanParts(Split(text, SEPARATORS[d]), [], SEPARATORS, d, size)
  {
    SkipTo(text, SEPARATORS, 0, d, size);
  }

  lemma PiecesAre(style: Style, text: string, size: nat, overlap: nat)
    requires size > 0 && text != "" && UsableSeparators(SEPARATORS)
    ensures PiecesOf(style, text, size, overlap) == Pieces(style, Plan(text, SEPARATORS, 0, size), size, overlap)
  {
  }

  lemma SidesAreAll(style: Style, text: string, a: seq<string>, b: seq<string>, d: nat, size: nat, overlap: nat)
    requires size > 0 && |text| > size && d < |SEPARATORS| && ValidSeparators(SEPARATORS)
    requires FreeOf(text, d) && Contains(text, SEPARATORS[d]) && Split(text, SEPARATORS[d]) == a + b
    requires EndsOversized(a, size) || StartsOversized(b, size)
    ensures PiecesOf(style, text, size, overlap)
      == SidePieces(style, a, d, size, overlap) + SidePieces(style, b, d, size, overlap)
  {
    PiecesAre(style, text, size, overlap);
    PlanIsParts(text, d, size);
    PlanApart(a, b, [], SEPARATORS, d, size);
    PiecesAppend(style, PlanParts(a, [], SEPARATORS, d, size), PlanParts(b, [], SEPARATORS, d, size), size, overlap);
  }

  /**
   * Between two parts of which one is too large there is a boundary between chunks: those before it hold what must be
   * kept of the parts before it, those behind it the rest, and the first of them carries nothing over.
   */
  lemma BoundaryStays(style: Style, text: string, sep: string, a: seq<string>, b: seq<string>, size: nat, overlap: nat)
    returns (left: seq<Piece>, right: seq<Piece>)
    requires size > 0 && |text| > size && CutsAt(text, sep) && sep != "" && Split(text, sep) == a + b
    requires EndsOversized(a, size) || StartsOversized(b, size)
    ensures PiecesOf(style, text, size, overlap) == left + right
    ensures Kept(FreshText(left)) == Kept(Concat(a)) && Kept(FreshText(right)) == Kept(Concat(b))
    ensures Chained(left, None, SEPARATORS, overlap) && Chained(right, None, SEPARATORS, overlap)
  {
    SeparatorsAreValid();
    var d := CutDepth(text, sep);
    left, right := SidePieces(style, a, d, size, overlap), SidePieces(style, b, d, size, overlap);
    SidesAreAll(style, text, a, b, d, size, overlap);
    SideKeeps(style, a, d, size, overlap);
    SideKeeps(style, b, d, size, overlap);
    SideChained(style, a, d, size, overlap);
    SideChained(style, b, d, size, overlap);
  }

  lemma UnlinkedIsFresh(pieces: seq<Piece>, seps: seq<string>)
    requires Chained(pieces, None, seps, 0)
    ensures Concat(Texts(pieces)) == FreshText(pieces)
  {
    forall k | 0 <= k < |pieces| ensures pieces[k].tail == "" && pieces[k].glue == "" {
      assert Linked(pieces[k], Before(pieces, k, None), seps, 0);
    }
    FreshIsAll(pieces);
  }

  /** Without overlap no chunk holds text from both sides of such a boundary. */
  lemma NothingAcross(style: Style, text: string, sep: string, a: seq<string>, b: seq<string>, size: nat)
    returns (left: seq<string>, right: seq<string>)
    requires size > 0 && |text| > size && CutsAt(text, sep) && sep != "" && Split(text, sep) == a + b
    requires EndsOversized(a, size) || StartsOversized(b, size)
    ensures Chunks(style, text, size, 0) == left + right
    ensures Kept(Concat(left)) == Kept(Concat(a)) && Kept(Concat(right)) == Kept(Concat(b))
  {
    var l, r := BoundaryStays(style, text, sep, a, b, size, 0);
    left, right := Texts(l), Texts(r);
    TextsAppend(l, r);
    UnlinkedIsFresh(l, SEPARATORS);
    UnlinkedIsFresh(r, SEPARATORS);
  }

  /** Sizes and overlaps that are not usable are replaced. */
  lemma DefaultedConfig(text: string, config: RagChunker.ChunkingConfig)
    requires config.enabled
    ensures
      var size := if config.chunkSize <= 0 then 1000 else config.chunkSize;
      var overlap := if config.overlapSize < 0 then 200 else config.overlapSize;
      Texts(RagChunker.TextPieces(text, config)) == Chunks(RagStyle, text, size, overlap)
  {
  }

  /** Nothing comes of no text, of a disabled configuration, or of a size that is not positive and has no default. */
  lemma NothingFromNothing(text: string, config: RagChunker.ChunkingConfig, size: int, overlap: nat)
    ensures text == "" || !config.enabled ==> RagChunker.TextPieces(text, config) == []
    ensures text == "" || size <= 0 ==> CharChunker.CharPieces(text, size, overlap) == []
  {
  }
}
