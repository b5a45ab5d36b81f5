/** The separator cascade of `chunker.go`. */
module CharChunker {
  import opened Wrappers
  import opened Text
  import opened Cascade

  datatype ChunkOptions = ChunkOptions(chunkSize: int, overlapSize: int)

  /** The body of the merge loop: emits the open chunk when the part does not fit, then writes the part. */
  method WritePart(chunks: seq<string>, cur: string, p: string, sep: string, size: nat, overlap: nat)
    returns (emitted: seq<string>, written: string)
    requires sep != ""
    ensures emitted == chunks + if MustClose(cur, p, sep, size) then [cur] else []
    ensures written == Written(CharStyle, cur, p, sep, size, overlap)
  {
    emitted, written := chunks, cur;
    if |written| > 0 && |written| + |sep| + |p| > size {
      emitted := emitted + [written];
      written := "";
      if overlap > 0 && |emitted| > 0 {
        var carried := Tail(emitted[|emitted| - 1], overlap);
        assert "" + carried == carried;
        written := written + carried;
        written := written + sep;
      }
    }
    assert "" + p == p;
    Assoc(written, p, sep);
    written := written + p;
    if |written| > 0 && |written| != |p| {
      written := written + sep;
    }
  }

  method MergeParts(parts: seq<string>, sep: string, size: nat, overlap: nat) returns (chunks: seq<string>)
    requires sep != ""
    ensures chunks == Texts(PartsPieces(CharStyle, parts, sep, size, overlap))
  {
    chunks := [];
    var cur := "";
    ghost var open: seq<string>, prev: Option<string> := [], None;
    ghost var all := Remaining(CharStyle, parts, sep, size, overlap, [], 0, None);
    assert parts[0..] == parts;
    for i := 0 to |parts|
      invariant Building(CharStyle, open, cur, sep, overlap, prev)
      invariant all == chunks + Remaining(CharStyle, parts[i..], sep, size, overlap, open, |cur|, prev)
    {
      assert parts[i..][0] == parts[i] && parts[i..][1..] == parts[i + 1..];
      open, prev := AdvanceAfter(CharStyle, chunks, parts[i..], sep, size, overlap, open, cur, prev);
      chunks, cur := WritePart(chunks, cur, parts[i], sep, size, overlap);
    }
    RemainingDone(CharStyle, sep, size, overlap, open, |cur|, prev);
    if cur != "" {
      chunks := chunks + [cur];
    }
  }

  method ForceSplit(text: string, size: nat, overlap: nat) returns (chunks: seq<string>)
    requires size > 0
    ensures chunks == Texts(ForcedPieces(text, size, overlap, 0))
  {
    chunks := [];
    var rest := text;
    ghost var dup: nat := 0;
    while |rest| > 0
      invariant dup <= |rest| && dup <= size
      invariant Texts(ForcedPieces(text, size, overlap, 0)) == chunks + Texts(ForcedPieces(rest, size, overlap, dup))
    {
      ForcedAfter(chunks, rest, size, overlap, dup);
      if |rest| <= size {
        chunks := chunks + [rest];
        return;
      }
      chunks := chunks + [rest[..size]];
      var step := size - overlap;
      if step <= 0 {
        step := size;
      }
      rest := rest[step..];
      dup := size - step;
    }
    NothingAfter(chunks, size, overlap);
  }

  method RecursiveSplit(text: string, seps: seq<string>, depth: nat, size: nat, overlap: nat)
    returns (chunks: seq<string>)
    requires size > 0 && UsableSeparators(seps)
    ensures chunks == Texts(SplitPieces(CharStyle, text, seps, depth, size, overlap))
    decreases if depth < |seps| then |seps| - depth else 0
  {
    WholeTexts(CharStyle, text, seps, depth, size, overlap);
    if |text| <= size {
      return [text];
    }
    if depth >= |seps| {
      chunks := ForceSplit(text, size, overlap);
      return;
    }
    var sep := seps[depth];
    if !Contains(text, sep) {
      chunks := RecursiveSplit(text, seps, depth + 1, size, overlap);
      return;
    }
    var parts := Split(text, sep);
    chunks := [];
    var good := [];
    ghost var all := RestTexts(CharStyle, parts, [], seps, depth, size, overlap);
    assert parts[0..] == parts;
    for i := 0 to |parts|
      invariant all == chunks + RestTexts(CharStyle, parts[i..], good, seps, depth, size, overlap)
    {
      assert parts[i..][0] == parts[i] && parts[i..][1..] == parts[i + 1..];
      var part := TrimSpace(parts[i]);
      if part == "" {
        continue;
      }
      if |part| > size {
        RestOversized(CharStyle, parts[i..], good, seps, depth, size, overlap);
        ghost var done, flushed := chunks, FlushTexts(CharStyle, good, sep, size, overlap);
        if |good| > 0 {
          var merged := MergeParts(good, sep, size, overlap);
          chunks := chunks + merged;
          good := [];
        }
        assert chunks == done + flushed;
        var pieces := RecursiveSplit(part, seps, depth + 1, size, overlap);
        chunks := chunks + pieces;
        ghost var rest := RestTexts(CharStyle, parts[i + 1..], [], seps, depth, size, overlap);
        Assoc(done, flushed + pieces, rest);
        Assoc(done, flushed, pieces);
      } else {
        good := good + [part];
      }
    }
    RestDone(CharStyle, good, seps, depth, size, overlap);
    if |good| > 0 {
      var merged := MergeParts(good, sep, size, overlap);
      chunks := chunks + merged;
    }
  }

  /** Everything `splitChars` does to one text. */
  function CharPieces(text: string, chunkSize: int, overlap: nat): seq<Piece> {
    SeparatorsAreValid();
    if text == "" || chunkSize <= 0 then [] else SplitPieces(CharStyle, text, SEPARATORS, 0, chunkSize, overlap)
  }

  method SplitChars(text: string, chunkSize: int, overlap: nat) returns (chunks: seq<string>)
    ensures chunks == Texts(CharPieces(text, chunkSize, overlap))
  {
    if text == "" || chunkSize <= 0 {
      return [];
    }
    SeparatorsAreValid();
    chunks := RecursiveSplit(text, SEPARATORS, 0, chunkSize, overlap);
  }

  /** A chunker holds options that are never changed. */
  datatype CharChunker = CharChunker(opts: ChunkOptions) {
    static function New(size: int, overlap: int): (c: CharChunker)
      ensures c.Usable() && c.opts.chunkSize > 0
      ensures (size > 0 ==> c.opts.chunkSize == size) && (overlap >= 0 ==> c.opts.overlapSize == overlap)
      ensures (size <= 0 ==> c.opts.chunkSize == 1000) && (overlap < 0 ==> c.opts.overlapSize == 200)
    {
      CharChunker(ChunkOptions(if size <= 0 then 1000 else size, if overlap < 0 then 200 else overlap))
    }

    predicate Usable() {
      opts.overlapSize >= 0
    }

    method Chunk(content: string) returns (chunks: seq<string>)
      requires Usable()
      ensures chunks == Texts(CharPieces(content, opts.chunkSize, opts.overlapSize))
    {
      chunks := SplitChars(content, opts.chunkSize, opts.overlapSize);
    }
  }
}
