/** The separator cascade of `rag_chunker.go`. */
module RagChunker {
  import opened Wrappers
  import opened Text
  import opened Cascade

  datatype ChunkingConfig = ChunkingConfig(enabled: bool, chunkSize: int, overlapSize: int)

  /** The body of the merge loop: emits the open chunk when the part does not fit, then writes the part. */
  method WritePart(chunks: seq<string>, current: string, part: string, sep: string, chunkSize: nat, overlap: nat)
    returns (emitted: seq<string>, written: string)
    requires sep != ""
    ensures emitted == chunks + if MustClose(current, part, sep, chunkSize) then [current] else []
    ensures written == Written(RagStyle, current, part, sep, chunkSize, overlap)
  {
    emitted, written := chunks, current;
    var partLen := |part|;
    var sepLen := 0;
    if |written| > 0 {
      sepLen := |sep|;
    }

    if |written| > 0 && |written| + sepLen + partLen > chunkSize {
      emitted := emitted + [written];
      written := "";
      if overlap > 0 && |emitted| > 0 {
        var carried := Tail(emitted[|emitted| - 1], overlap);
        assert "" + carried == carried;
        written := written + carried;
        written := written + sep;
      }
    }

    if |written| > 0 {
      Assoc(written, sep, part);
      written := written + sep;
    }
    assert "" + part == part;
    written := written + part;
  }

  method MergeParts(parts: seq<string>, sep: string, chunkSize: nat, overlap: nat) returns (chunks: seq<string>)
    requires sep != ""
    ensures chunks == Texts(PartsPieces(RagStyle, parts, sep, chunkSize, overlap))
  {
    chunks := [];
    var current := "";
    ghost var open: seq<string>, prev: Option<string> := [], None;
    ghost var all := Remaining(RagStyle, parts, sep, chunkSize, overlap, [], 0, None);
    assert parts[0..] == parts;
    for i := 0 to |parts|
      invariant Building(RagStyle, open, current, sep, overlap, prev)
      invariant all == chunks + Remaining(RagStyle, parts[i..], sep, chunkSize, overlap, open, |current|, prev)
    {
      assert parts[i..][0] == parts[i] && parts[i..][1..] == parts[i + 1..];
      open, prev := AdvanceAfter(RagStyle, chunks, parts[i..], sep, chunkSize, overlap, open, current, prev);
      chunks, current := WritePart(chunks, current, parts[i], sep, chunkSize, overlap);
    }
    RemainingDone(RagStyle, sep, chunkSize, overlap, open, |current|, prev);
    if current != "" {
      chunks := chunks + [current];
    }
  }

  method ForceSplitBySize(text: string, chunkSize: nat, overlap: nat) returns (chunks: seq<string>)
    requires chunkSize > 0
    ensures chunks == Texts(ForcedPieces(text, chunkSize, overlap, 0))
  {
    chunks := [];
    var rest := text;
    ghost var dup: nat := 0;
    while |rest| > 0
      invariant dup <= |rest| && dup <= chunkSize
      invariant Texts(ForcedPieces(text, chunkSize, overlap, 0))
        == chunks + Texts(ForcedPieces(rest, chunkSize, overlap, dup))
    {
      ForcedAfter(chunks, rest, chunkSize, overlap, dup);
      if |rest| <= chunkSize {
        chunks := chunks + [rest];
        return;
      }
      chunks := chunks + [rest[..chunkSize]];
      var step := chunkSize - overlap;
      if step <= 0 {
        step := chunkSize;
      }
      rest := rest[step..];
      dup := chunkSize - step;
    }
    NothingAfter(chunks, chunkSize, overlap);
  }

  method RecursiveSplit(text: string, separators: seq<string>, depth: nat, chunkSize: nat, overlap: nat)
    returns (finalChunks: seq<string>)
    requires chunkSize > 0 && UsableSeparators(separators)
    ensures finalChunks == Texts(SplitPieces(RagStyle, text, separators, depth, chunkSize, overlap))
    decreases if depth < |separators| then |separators| - depth else 0
  {
    WholeTexts(RagStyle, text, separators, depth, chunkSize, overlap);
    if |text| <= chunkSize {
      return [text];
    }
    if depth >= |separators| {
      finalChunks := ForceSplitBySize(text, chunkSize, overlap);
      return;
    }
    var sep := separators[depth];
    if !Contains(text, sep) {
      finalChunks := RecursiveSplit(text, separators, depth + 1, chunkSize, overlap);
      return;
    }
    var parts := Split(text, sep);
    finalChunks := [];
    var goodParts := [];
    ghost var all := RestTexts(RagStyle, parts, [], separators, depth, chunkSize, overlap);
    assert parts[0..] == parts;
    for i := 0 to |parts|
      invariant all == finalChunks + RestTexts(RagStyle, parts[i..], goodParts, separators, depth, chunkSize, overlap)
    {
      assert parts[i..][0] == parts[i] && parts[i..][1..] == parts[i + 1..];
      var part := TrimSpace(parts[i]);
      if part == "" {
        continue;
      }
      if |part| > chunkSize {
        RestOversized(RagStyle, parts[i..], goodParts, separators, depth, chunkSize, overlap);
        ghost var done, flushed := finalChunks, FlushTexts(RagStyle, goodParts, sep, chunkSize, overlap);
        if |goodParts| > 0 {
          var merged := MergeParts(goodParts, sep, chunkSize, overlap);
          finalChunks := finalChunks + merged;
          goodParts := [];
        }
        assert finalChunks == done + flushed;
        var pieces := RecursiveSplit(part, separators, depth + 1, chunkSize, overlap);
        finalChunks := finalChunks + pieces;
        ghost var rest := RestTexts(RagStyle, parts[i + 1..], [], separators, depth, chunkSize, overlap);
        Assoc(done, flushed + pieces, rest);
        Assoc(done, flushed, pieces);
      } else {
        goodParts := goodParts + [part];
      }
    }
    RestDone(RagStyle, goodParts, separators, depth, chunkSize, overlap);
    if |goodParts| > 0 {
      var merged := MergeParts(goodParts, sep, chunkSize, overlap);
      finalChunks := finalChunks + merged;
    }
  }

  /** Size and overlap after defaulting. */
  function ChunkSize(config: ChunkingConfig): (n: nat)
    ensures n > 0
  {
    if config.chunkSize <= 0 then 1000 else config.chunkSize
  }

  function Overlap(config: ChunkingConfig): nat {
    if config.overlapSize < 0 then 200 else config.overlapSize
  }

  function TextPieces(text: string, config: ChunkingConfig): seq<Piece> {
    SeparatorsAreValid();
    if text == "" || !config.enabled then []
    else SplitPieces(RagStyle, text, SEPARATORS, 0, ChunkSize(config), Overlap(config))
  }

  method ChunkText(text: string, config: ChunkingConfig) returns (chunks: seq<string>)
    ensures chunks == Texts(TextPieces(text, config))
  {
    if text == "" || !config.enabled {
      return [];
    }
    var chunkSize := config.chunkSize;
    var overlap := config.overlapSize;
    if chunkSize <= 0 {
      chunkSize := 1000;
    }
    if overlap < 0 {
      overlap := 200;
    }
    SeparatorsAreValid();
    chunks := RecursiveSplit(text, SEPARATORS, 0, chunkSize, overlap);
  }
}
