/** The token-aware line packer of `chunker.go`, for any tokenizer. */
module TokenChunker {
  import opened Wrappers
  import opened Text

  type Tokenizer = string -> int

  // ---------- overlap ----------

  /** The shortest non-empty suffix of `src` from position `i` or before that is within the budget, or `src`. */
  function ShortestFit(src: string, maxTokens: int, tokenize: Tokenizer, i: nat): string
    requires i <= |src|
  {
    if i == 0 then src
    else if tokenize(src[i - 1..]) <= maxTokens then src[i - 1..]
    else ShortestFit(src, maxTokens, tokenize, i - 1)
  }

  function TailOf(src: string, maxTokens: int, tokenize: Tokenizer): string {
    if src == "" || maxTokens <= 0 then "" else ShortestFit(src, maxTokens, tokenize, |src|)
  }

  method OverlapTail(src: string, maxTokens: int, tokenize: Tokenizer) returns (tail: string)
    ensures tail == TailOf(src, maxTokens, tokenize)
  {
    if src == "" || maxTokens <= 0 {
      return "";
    }
    var i := |src| - 1;
    while i >= 0
      invariant -1 <= i < |src|
      invariant ShortestFit(src, maxTokens, tokenize, |src|) == ShortestFit(src, maxTokens, tokenize, i + 1)
    {
      if tokenize(src[i..]) <= maxTokens {
        return src[i..];
      }
      i := i - 1;
    }
    return src;
  }

  ghost predicate Fits(tokenize: Tokenizer, maxTokens: int, src: string, i: nat) {
    i < |src| && tokenize(src[i..]) <= maxTokens
  }

  lemma {:induction false} ShortestFitIs(src: string, maxTokens: int, tokenize: Tokenizer, i: nat)
    requires i <= |src| && src != ""
    requires forall j :: i <= j < |src| ==> !Fits(tokenize, maxTokens, src, j)
    ensures
      var t := ShortestFit(src, maxTokens, tokenize, i);
      && IsSuffix(t, src) && t != ""
      && (forall j :: |src| - |t| < j < |src| ==> !Fits(tokenize, maxTokens, src, j))
      && (Fits(tokenize, maxTokens, src, |src| - |t|) || (t == src && forall j :: !Fits(tokenize, maxTokens, src, j)))
    decreases i
  {
    if i == 0 {
      assert IsSuffix(src, src);
    } else if Fits(tokenize, maxTokens, src, i - 1) {
      assert |src[i - 1..]| == |src| - (i - 1);
    } else {
      ShortestFitIs(src, maxTokens, tokenize, i - 1);
    }
  }

  /**
   * The tail is a non-empty suffix and no shorter non-empty suffix is within the budget. It is within the budget
   * exactly when some non-empty suffix is; when none is, it is all of `src`.
   */
  lemma TailIsShortest(src: string, maxTokens: int, tokenize: Tokenizer)
    requires src != "" && maxTokens > 0
    ensures
      var t := TailOf(src, maxTokens, tokenize);
      && IsSuffix(t, src) && t != ""
      && (forall j :: |src| - |t| < j < |src| ==> !Fits(tokenize, maxTokens, src, j))
      && (tokenize(t) <= maxTokens <==> exists j :: Fits(tokenize, maxTokens, src, j))
      && ((forall j :: !Fits(tokenize, maxTokens, src, j)) ==> t == src)
  {
    ShortestFitIs(src, maxTokens, tokenize, |src|);
    var t := TailOf(src, maxTokens, tokenize);
    assert Fits(tokenize, maxTokens, src, |src| - |t|) <==> tokenize(t) <= maxTokens;
  }

  // ---------- lines ----------

  /** The lines of `content`, each with its line feed. */
  function Lines(lines: seq<string>): seq<string> {
    if lines == [] then []
    else if |lines| == 1 then lines
    else [lines[0] + "\n"] + Lines(lines[1..])
  }

  lemma {:induction false} LinesRejoin(lines: seq<string>)
    ensures |Lines(lines)| == |lines|
    ensures Concat(Lines(lines)) == Join(lines, "\n")
    ensures forall k :: 0 <= k < |lines| ==> Lines(lines)[k] == lines[k] + if k < |lines| - 1 then "\n" else ""
  {
    if |lines| == 1 {
      assert Concat(lines) == lines[0] + Concat(lines[1..]);
      assert lines[0] + "" == lines[0];
    } else if lines != [] {
      LinesRejoin(lines[1..]);
      assert ([lines[0] + "\n"] + Lines(lines[1..]))[1..] == Lines(lines[1..]);
    }
  }

  lemma LineCount(lines: seq<string>)
    ensures |Lines(lines)| == |lines|
  {
    LinesRejoin(lines);
  }

  lemma LineAt(lines: seq<string>, i: nat)
    requires i < |lines|
    ensures i < |Lines(lines)| && Lines(lines)[i] == if i < |lines| - 1 then lines[i] + "\n" else lines[i]
  {
    LinesRejoin(lines);
    assert lines[i] + "" == lines[i];
  }

  // ---------- packing ----------

  /** A chunk: what it repeats from the chunk before it, and the lines it adds. */
  datatype Pack = Pack(tail: string, lines: seq<string>) {
    function Text(): string {
      tail + Concat(lines)
    }
  }

  predicate Closes(open: Pack, line: string, tokenize: Tokenizer, size: int) {
    tokenize(open.Text() + line) > size && open.Text() != ""
  }

  /** The open chunk after one more line. */
  function After(open: Pack, line: string, tokenize: Tokenizer, size: int, overlap: int): Pack {
    if Closes(open, line, tokenize, size) then
      Pack(if overlap > 0 then TailOf(open.Text(), overlap, tokenize) else "", [line])
    else Pack(open.tail, open.lines + [line])
  }

  function Packs(lines: seq<string>, tokenize: Tokenizer, size: int, overlap: int, open: Pack): seq<Pack> {
    if lines == [] then (if open.Text() == "" then [] else [open])
    else
      var closed := if Closes(open, lines[0], tokenize, size) then [open] else [];
      closed + Packs(lines[1..], tokenize, size, overlap, After(open, lines[0], tokenize, size, overlap))
  }

  const EMPTY: Pack := Pack("", [])

  function ContentPacks(content: string, tokenize: Tokenizer, size: int, overlap: int): seq<Pack> {
    if content == "" then [] else Packs(Lines(Split(content, "\n")), tokenize, size, overlap, EMPTY)
  }

  function Texts(packs: seq<Pack>): (r: seq<string>)
    ensures |r| == |packs|
    ensures forall k :: 0 <= k < |packs| ==> r[k] == packs[k].Text()
  {
    seq(|packs|, k requires 0 <= k < |packs| => packs[k].Text())
  }

  lemma TextsAppend(a: seq<Pack>, b: seq<Pack>)
    ensures Texts(a + b) == Texts(a) + Texts(b)
  {
  }

  /** The chunks so far and those still to come, while `open` is being built. */
  ghost function Whole(packed: seq<Pack>, rest: seq<string>, tokenize: Tokenizer, size: int, overlap: int,
                       open: Pack): seq<Pack> {
    packed + Packs(rest, tokenize, size, overlap, open)
  }

  /** One iteration of the packing loop. */
  lemma Advance(packed: seq<Pack>, rest: seq<string>, tokenize: Tokenizer, size: int, overlap: int, open: Pack)
    returns (packed': seq<Pack>, next: Pack)
    requires rest != []
    ensures
      var cur := open.Text();
      var closes := tokenize(cur + rest[0]) > size && cur != "";
      && Texts(packed') == Texts(packed) + (if closes then [cur] else [])
      && next.Text() == (if !closes then cur else if overlap > 0 then TailOf(cur, overlap, tokenize) else "") + rest[0]
    ensures Whole(packed, rest, tokenize, size, overlap, open)
      == Whole(packed', rest[1..], tokenize, size, overlap, next)
  {
    next := After(open, rest[0], tokenize, size, overlap);
    var closed := if Closes(open, rest[0], tokenize, size) then [open] else [];
    packed' := packed + closed;
    Assoc(packed, closed, Packs(rest[1..], tokenize, size, overlap, next));
    AfterText(open, rest[0], tokenize, size, overlap);
    TextsAppend(packed, closed);
  }

  lemma AfterText(open: Pack, line: string, tokenize: Tokenizer, size: int, overlap: int)
    ensures After(open, line, tokenize, size, overlap).Text() ==
      (if !Closes(open, line, tokenize, size) then open.Text()
       else if overlap > 0 then TailOf(open.Text(), overlap, tokenize) else "") + line
  {
    assert Concat([line]) == line + Concat([line][1..]) == line;
    ConcatAppend(open.lines, [line]);
    Assoc(open.tail, Concat(open.lines), line);
  }

  lemma AllPacked(packed: seq<Pack>, tokenize: Tokenizer, size: int, overlap: int, open: Pack)
    ensures Texts(Whole(packed, [], tokenize, size, overlap, open))
      == Texts(packed) + if open.Text() == "" then [] else [open.Text()]
  {
    TextsAppend(packed, if open.Text() == "" then [] else [open]);
  }

  /** The packing loop over the lines of a content. */
  method PackLines(lines: seq<string>, tokenize: Tokenizer, size: int, overlap: int) returns (chunks: seq<string>)
    ensures chunks == Texts(Packs(Lines(lines), tokenize, size, overlap, EMPTY))
  {
    chunks := [];
    var cur := "";
    ghost var all := Lines(lines);
    ghost var open, packed := EMPTY, [];
    ghost var whole := Packs(all, tokenize, size, overlap, EMPTY);
    LineCount(lines);
    assert all[0..] == all && [] + whole == whole;
    for i := 0 to |lines|
      invariant |all| == |lines| && cur == open.Text() && chunks == Texts(packed)
      invariant whole == Whole(packed, all[i..], tokenize, size, overlap, open)
    {
      var line := lines[i];
      var lineWithSep := line;
      if i < |lines| - 1 {
        lineWithSep := lineWithSep + "\n";
      }
      LineAt(lines, i);
      assert all[i..][0] == lineWithSep && all[i..][1..] == all[i + 1..];
      packed, open := Advance(packed, all[i..], tokenize, size, overlap, open);

      var candidate := cur + lineWithSep;
      if candidate != "" && tokenize(candidate) > size && |cur| > 0 {
        chunks := chunks + [cur];
        cur := "";
        if overlap > 0 && |chunks| > 0 {
          var tail := OverlapTail(chunks[|chunks| - 1], overlap, tokenize);
          assert "" + tail == tail;
          cur := cur + tail;
        }
      }
      cur := cur + lineWithSep;
    }
    AllPacked(packed, tokenize, size, overlap, open);
    if |cur| > 0 {
      chunks := chunks + [cur];
    }
  }

  /** A chunker holds its options and its tokenizer, which may be missing. */
  datatype TokenChunker = TokenChunker(chunkSize: int, overlapSize: int, tokenizer: Option<Tokenizer>) {

    static function New(size: int, overlap: int, tokenizer: Option<Tokenizer>): (c: TokenChunker)
      ensures c.chunkSize > 0 && c.overlapSize >= 0 && c.tokenizer == tokenizer
      ensures (size > 0 ==> c.chunkSize == size) && (overlap >= 0 ==> c.overlapSize == overlap)
      ensures (size <= 0 ==> c.chunkSize == 256) && (overlap < 0 ==> c.overlapSize == 50)
    {
      TokenChunker(if size <= 0 then 256 else size, if overlap < 0 then 50 else overlap, tokenizer)
    }

    function Result(content: string): seq<Pack> {
      if tokenizer.None? then [] else ContentPacks(content, tokenizer.value, chunkSize, overlapSize)
    }

    method Chunk(content: string) returns (chunks: seq<string>)
      ensures chunks == Texts(Result(content))
    {
      if tokenizer.None? || content == "" {
        return [];
      }
      chunks := PackLines(Split(content, "\n"), tokenizer.value, chunkSize, overlapSize);
    }
  }
}
