/** The PDF page packer. */
module PdfPages {
  // From `rag_chunker.go`: pages are packed greedily, with text carried over between chunks.

  import opened Text
  import opened Greedy
  import opened Documents
  import opened RagChunker

  datatype DocumentPage = DocumentPage(pageContent: string, charCount: int)

  const BLANK: string := "\n\n"

  // ---------- which pages go together ----------

  /** What a chunk that starts at page `first` repeats from the page before it. */
  function Carried(pages: seq<DocumentPage>, first: nat, overlap: int): string {
    if overlap > 0 && 2 <= first <= |pages| + 1 then Tail(pages[first - 2].pageContent, overlap) + BLANK else ""
  }

  function PageText(pages: seq<DocumentPage>, number: nat): string {
    if 1 <= number <= |pages| then pages[number - 1].pageContent else ""
  }

  /** The pages of a chunk, each followed by a blank line. */
  function PagesText(pages: seq<DocumentPage>, group: seq<nat>): string {
    if group == [] then "" else PageText(pages, group[0]) + BLANK + PagesText(pages, group[1..])
  }

  function ChunkText(pages: seq<DocumentPage>, group: seq<nat>, overlap: int): string
    requires group != []
  {
    Carried(pages, group[0], overlap) + PagesText(pages, group)
  }

  /** The open chunk is closed before page `k + 1`. */
  predicate NoRoom(pages: seq<DocumentPage>, k: nat, size: int, overlap: int, open: seq<nat>)
    requires k < |pages| && (k > 0 ==> open != [])
  {
    k > 0 && |ChunkText(pages, open, overlap)| + pages[k].charCount > size
  }

  /** Greedy grouping of page numbers `k + 1` and up behind the open group. */
  function PageGroups(pages: seq<DocumentPage>, k: nat, size: int, overlap: int,
                      open: seq<nat>): (groups: seq<seq<nat>>)
    requires k <= |pages| && (k > 0 ==> open != [])
    ensures NonEmptyPages(groups)
    decreases |pages| - k
  {
    if k == |pages| then (if open == [] then [] else [open])
    else if NoRoom(pages, k, size, overlap, open) then
      [open] + PageGroups(pages, k + 1, size, overlap, [k + 1])
    else PageGroups(pages, k + 1, size, overlap, open + [k + 1])
  }

  predicate NonEmptyPages(groups: seq<seq<nat>>) {
    forall k :: 0 <= k < |groups| ==> groups[k] != []
  }

  function MakeChunk(pages: seq<DocumentPage>, group: seq<nat>, overlap: int, id: nat): DocumentChunk
    requires group != []
  {
    DocumentChunk(ChunkId(id), ChunkText(pages, group, overlap), PageMeta(group))
  }

  function MakeChunks(pages: seq<DocumentPage>, groups: seq<seq<nat>>, overlap: int, id: nat): seq<DocumentChunk>
    requires NonEmptyPages(groups)
  {
    seq(|groups|, k requires 0 <= k < |groups| => MakeChunk(pages, groups[k], overlap, id + k))
  }

  lemma SameFront(before: seq<DocumentChunk>, after: seq<DocumentChunk>, last: DocumentChunk)
    requires |after| == |before| + 1 && after[|before|] == last && forall k :: 0 <= k < |before| ==>
      after[k] == before[k]
    ensures after == before + [last]
  {
  }

  lemma MakeOneMore(pages: seq<DocumentPage>, groups: seq<seq<nat>>, group: seq<nat>, overlap: int, id: nat)
    requires NonEmptyPages(groups) && group != []
    ensures NonEmptyPages(groups + [group])
    ensures MakeChunks(pages, groups + [group], overlap, id)
      == MakeChunks(pages, groups, overlap, id) + [MakeChunk(pages, group, overlap, id + |groups|)]
  {
    var all := groups + [group];
    assert all[|groups|] == group && forall k :: 0 <= k < |groups| ==> all[k] == groups[k];
    var before, after := MakeChunks(pages, groups, overlap, id), MakeChunks(pages, all, overlap, id);
    forall k | 0 <= k < |groups| ensures after[k] == before[k] {
    }
    SameFront(before, after, MakeChunk(pages, group, overlap, id + |groups|));
  }

  lemma KeepGroup(pages: seq<DocumentPage>, i: nat, size: int, overlap: int, open: seq<nat>)
    requires i < |pages| && (i > 0 ==> open != []) && !NoRoom(pages, i, size, overlap, open)
    ensures PageGroups(pages, i, size, overlap, open) == PageGroups(pages, i + 1, size, overlap, open + [i + 1])
  {
  }

  lemma CloseGroup(pages: seq<DocumentPage>, k: nat, size: int, overlap: int, open: seq<nat>)
    requires k < |pages| && (k > 0 ==> open != []) && NoRoom(pages, k, size, overlap, open)
    ensures PageGroups(pages, k, size, overlap, open) == [open] + PageGroups(pages, k + 1, size, overlap, [k + 1])
  {
  }

  /** The text of a chunk after one more page. */
  lemma TakeChunk(pages: seq<DocumentPage>, group: seq<nat>, number: nat, overlap: int)
    requires 1 <= number <= |pages|
    ensures ChunkText(pages, group + [number], overlap) ==
      (if group == [] then Carried(pages, number, overlap) else ChunkText(pages, group, overlap))
      + pages[number - 1].pageContent + BLANK
  {
    var content := pages[number - 1].pageContent;
    TakePage(pages, group, number);
    if group == [] {
      var carried := Carried(pages, number, overlap);
      assert group + [number] == [number] && [number][1..] == [];
      assert content + BLANK + "" == content + BLANK;
      Assoc(carried, content, BLANK);
    } else {
      Assoc(Carried(pages, group[0], overlap), PagesText(pages, group), content + BLANK);
      Assoc(ChunkText(pages, group, overlap), content, BLANK);
    }
  }

  /** The closed groups and the open one before page `k + 1`. */
  function Taken(pages: seq<DocumentPage>, k: nat, size: int, overlap: int): (t: (seq<seq<nat>>, seq<nat>))
    requires k <= |pages|
    ensures NonEmptyPages(t.0) && (k == 0 <==> t.1 == [])
  {
    if k == 0 then ([], [])
    else
      var (closed, open) := Taken(pages, k - 1, size, overlap);
      if NoRoom(pages, k - 1, size, overlap, open) then (closed + [open], [k]) else (closed, open + [k])
  }

  /** What is taken before page `k + 1`, and what is still to come. */
  function TakenAndRest(pages: seq<DocumentPage>, k: nat, size: int, overlap: int): seq<seq<nat>>
    requires k <= |pages|
  {
    Taken(pages, k, size, overlap).0 + PageGroups(pages, k, size, overlap, Taken(pages, k, size, overlap).1)
  }

  lemma OneMoreTaken(pages: seq<DocumentPage>, k: nat, size: int, overlap: int)
    requires k < |pages|
    ensures TakenAndRest(pages, k + 1, size, overlap) == TakenAndRest(pages, k, size, overlap)
  {
    var (closed, open) := Taken(pages, k, size, overlap);
    if NoRoom(pages, k, size, overlap, open) {
      CloseGroup(pages, k, size, overlap, open);
      Assoc(closed, [open], PageGroups(pages, k + 1, size, overlap, [k + 1]));
    } else {
      KeepGroup(pages, k, size, overlap, open);
    }
  }

  lemma {:induction false} AllEqual<T>(s: seq<T>)
    requires s != [] && forall k :: 0 <= k < |s| - 1 ==> s[k] == s[k + 1]
    ensures s[0] == s[|s| - 1]
  {
    if |s| > 1 {
      AllEqual(s[..|s| - 1]);
    }
  }

  function Totals(pages: seq<DocumentPage>, size: int, overlap: int): (totals: seq<seq<seq<nat>>>)
    ensures |totals| == |pages| + 1 && forall k :: 0 <= k <= |pages| ==>
      totals[k] == TakenAndRest(pages, k, size, overlap)
  {
    seq(|pages| + 1, k requires 0 <= k <= |pages| => TakenAndRest(pages, k, size, overlap))
  }

  /** All pages taken, the groups are those of the packer, the open one included. */
  lemma AllTaken(pages: seq<DocumentPage>, size: int, overlap: int)
    ensures PageGroups(pages, 0, size, overlap, []) == TakenAndRest(pages, |pages|, size, overlap)
  {
    var totals := Totals(pages, size, overlap);
    forall k | 0 <= k < |pages| ensures totals[k] == totals[k + 1] {
      OneMoreTaken(pages, k, size, overlap);
    }
    AllEqual(totals);
    assert [] + PageGroups(pages, 0, size, overlap, []) == PageGroups(pages, 0, size, overlap, []);
  }

  function Took(pages: seq<DocumentPage>, k: nat, size: int, overlap: int, closed: seq<seq<nat>>, open: seq<nat>)
    : (seq<seq<nat>>, seq<nat>)
    requires k < |pages| && (k > 0 ==> open != [])
  {
    if NoRoom(pages, k, size, overlap, open) then (closed + [open], [k + 1]) else (closed, open + [k + 1])
  }

  /** What is taken before page `k + 1`, as a pair. */
  lemma TakenIs(pages: seq<DocumentPage>, k: nat, size: int, overlap: int)
    returns (closed: seq<seq<nat>>, open: seq<nat>)
    requires k <= |pages|
    ensures (closed, open) == Taken(pages, k, size, overlap) && (k > 0 <==> open != []) && (k == 0 ==> closed == [])
    ensures k < |pages| ==>
      Taken(pages, k + 1, size, overlap) == Took(pages, k, size, overlap, closed, open)
  {
    closed, open := Taken(pages, k, size, overlap).0, Taken(pages, k, size, overlap).1;
  }

  lemma LastGroups(pages: seq<DocumentPage>, size: int, overlap: int, closed: seq<seq<nat>>, open: seq<nat>)
    requires (closed, open) == Taken(pages, |pages|, size, overlap)
    ensures TakenAndRest(pages, |pages|, size, overlap) == if open == [] then closed else closed + [open]
  {
    assert closed + [] == closed;
  }

  /** The variables of the loop before page `i + 1`: the closed groups are written, the open one is in `current`. */
  ghost predicate Packing(pages: seq<DocumentPage>, config: ChunkingConfig, i: nat, open: seq<nat>, current: string,
                          chunks: seq<DocumentChunk>, chunkID: nat)
  {
    && i <= |pages|
    && open == Taken(pages, i, config.chunkSize, config.overlapSize).1
    && (open == [] <==> current == "") && (open != [] ==> current == ChunkText(pages, open, config.overlapSize))
    && chunkID == 1 + |Taken(pages, i, config.chunkSize, config.overlapSize).0|
    && chunks == MakeChunks(pages, Taken(pages, i, config.chunkSize, config.overlapSize).0, config.overlapSize, 1)
  }

  lemma StartPacking(pages: seq<DocumentPage>, config: ChunkingConfig)
    ensures Packing(pages, config, 0, [], "", [], 1)
  {
  }

  lemma WritePage(pages: seq<DocumentPage>, i: nat, open: seq<nat>, current: string, overlap: int)
    requires i < |pages| && (i == 0 <==> open == [])
    requires current == if open == [] then "" else ChunkText(pages, open, overlap)
    ensures current + pages[i].pageContent + BLANK == ChunkText(pages, open + [i + 1], overlap)
    ensures current + pages[i].pageContent + BLANK != ""
  {
    TakeChunk(pages, open, i + 1, overlap);
  }

  /** Page `i + 1` joins the open group. */
  lemma KeepPacking(pages: seq<DocumentPage>, config: ChunkingConfig, i: nat, open: seq<nat>, current: string,
                    chunks: seq<DocumentChunk>, chunkID: nat)
    requires i < |pages| && Packing(pages, config, i, open, current, chunks, chunkID)
    requires !NoRoom(pages, i, config.chunkSize, config.overlapSize, open)
    ensures Packing(pages, config, i + 1, open + [i + 1], current + pages[i].pageContent + BLANK, chunks, chunkID)
  {
    WritePage(pages, i, open, current, config.overlapSize);
  }

  /** The open group is written out and page `i + 1` opens the next. */
  lemma ClosePacking(pages: seq<DocumentPage>, config: ChunkingConfig, i: nat, open: seq<nat>, current: string,
                     chunks: seq<DocumentChunk>, chunkID: nat)
    requires i < |pages| && Packing(pages, config, i, open, current, chunks, chunkID)
    requires NoRoom(pages, i, config.chunkSize, config.overlapSize, open)
    ensures
      Packing(pages, config, i + 1, [i + 1], Carried(pages, i + 1, config.overlapSize) + pages[i].pageContent + BLANK,
              chunks + [DocumentChunk(ChunkId(chunkID), current, PageMeta(open))], chunkID + 1)
  {
    var overlap := config.overlapSize;
    TakeChunk(pages, [], i + 1, overlap);
    assert [] + [i + 1] == [i + 1];
    MakeOneMore(pages, Taken(pages, i, config.chunkSize, overlap).0, open, overlap, 1);
  }

  lemma EndPacking(pages: seq<DocumentPage>, config: ChunkingConfig, open: seq<nat>, current: string,
                   chunks: seq<DocumentChunk>, chunkID: nat)
    requires Packing(pages, config, |pages|, open, current, chunks, chunkID)
    ensures IsPacked(pages, config, Ended(chunks, chunkID, current, open))
  {
    var closed := Taken(pages, |pages|, config.chunkSize, config.overlapSize).0;
    AllTaken(pages, config.chunkSize, config.overlapSize);
    if open != [] {
      MakeOneMore(pages, closed, open, config.overlapSize, 1);
    } else {
      assert closed + [] == closed;
    }
  }

  /** The chunks with the open one behind them, unless it is empty. */
  function Ended(chunks: seq<DocumentChunk>, chunkID: nat, current: string, open: seq<nat>): seq<DocumentChunk> {
    if current == "" then chunks else chunks + [DocumentChunk(ChunkId(chunkID), current, PageMeta(open))]
  }

  /** The chunks are those of the greedy grouping, numbered from 1. */
  ghost predicate IsPacked(pages: seq<DocumentPage>, config: ChunkingConfig, chunks: seq<DocumentChunk>) {
    var groups := PageGroups(pages, 0, config.chunkSize, config.overlapSize, []);
    chunks == MakeChunks(pages, groups, config.overlapSize, 1)
  }

  /** Page `i + 1` joins the open chunk or opens the next. */
  method AddPage(pages: seq<DocumentPage>, config: ChunkingConfig, i: nat, open: seq<nat>, text: string,
                 written: seq<DocumentChunk>, nextID: nat)
    returns (currentPages: seq<nat>, current: string, chunks: seq<DocumentChunk>, chunkID: nat)
    requires i < |pages| && Packing(pages, config, i, open, text, written, nextID)
    ensures Packing(pages, config, i + 1, currentPages, current, chunks, chunkID)
  {
    currentPages, current, chunks, chunkID := open, text, written, nextID;
    if |current| > 0 && |current| + pages[i].charCount > config.chunkSize {
      ClosePacking(pages, config, i, open, text, written, nextID);
      chunks := chunks + [DocumentChunk(ChunkId(chunkID), current, PageMeta(currentPages))];
      chunkID := chunkID + 1;
      current := CarryOver(pages, i, config.overlapSize);
      currentPages := [];
      assert currentPages + [i + 1] == [i + 1];
    } else {
      KeepPacking(pages, config, i, open, text, written, nextID);
    }
    current := current + pages[i].pageContent;
    current := current + BLANK;
    currentPages := currentPages + [i + 1];
  }

  method ChunkPDFByPages(pages: seq<DocumentPage>, config: ChunkingConfig) returns (chunks: seq<DocumentChunk>)
    ensures IsPacked(pages, config, chunks)
  {
    chunks := [];
    var current := "";
    var currentPages: seq<nat> := [];
    var chunkID := 1;
    StartPacking(pages, config);
    for i := 0 to |pages|
      invariant Packing(pages, config, i, currentPages, current, chunks, chunkID)
    {
      currentPages, current, chunks, chunkID := AddPage(pages, config, i, currentPages, current, chunks, chunkID);
    }
    EndPacking(pages, config, currentPages, current, chunks, chunkID);
    if |current| > 0 {
      chunks := chunks + [DocumentChunk(ChunkId(chunkID), current, PageMeta(currentPages))];
    }
  }

  /** What the chunk that starts at page `i + 1` begins with. */
  method CarryOver(pages: seq<DocumentPage>, i: nat, overlap: int) returns (current: string)
    requires i < |pages|
    ensures current == Carried(pages, i + 1, overlap)
  {
    current := "";
    if overlap > 0 && i > 0 {
      current := current + Tail(pages[i - 1].pageContent, overlap);
      current := current + BLANK;
    }
  }

  lemma {:induction false} TakePage(pages: seq<DocumentPage>, group: seq<nat>, number: nat)
    requires 1 <= number <= |pages|
    ensures PagesText(pages, group + [number]) == PagesText(pages, group) + (PageText(pages, number) + BLANK)
  {
    if group == [] {
      assert group + [number] == [number] && [number][1..] == [];
    } else {
      TakePage(pages, group[1..], number);
      assert (group + [number])[1..] == group[1..] + [number];
      Assoc(PageText(pages, group[0]) + BLANK, PagesText(pages, group[1..]), PageText(pages, number) + BLANK);
    }
  }

  // ---------- what the packer guarantees ----------

  /** The page numbers `from + 1` to `to`, in order. */
  function Numbers(from: nat, to: nat): (r: seq<nat>)
    requires from <= to
    ensures |r| == to - from && forall k :: 0 <= k < |r| ==> r[k] == from + 1 + k
  {
    seq(to - from, k requires 0 <= k < to - from => from + 1 + k)
  }

  lemma FlattenFirst(first: seq<nat>, rest: seq<seq<nat>>)
    ensures Flatten([first] + rest) == first + Flatten(rest)
  {
    assert ([first] + rest)[1..] == rest;
  }

  lemma NumbersFirst(from: nat, to: nat)
    requires from < to
    ensures Numbers(from, to) == [from + 1] + Numbers(from + 1, to)
  {
  }

  /** Every page is in exactly one chunk, and the pages stay in order. */
  lemma {:induction false} PagesConserved(pages: seq<DocumentPage>, k: nat, size: int, overlap: int, open: seq<nat>)
    requires k <= |pages| && (k > 0 ==> open != [])
    ensures Flatten(PageGroups(pages, k, size, overlap, open)) == open + Numbers(k, |pages|)
    decreases |pages| - k
  {
    if k == |pages| {
      FlattenFirst(open, []);
      assert [open] + [] == [open];
    } else if NoRoom(pages, k, size, overlap, open) {
      PagesConserved(pages, k + 1, size, overlap, [k + 1]);
      NumbersFirst(k, |pages|);
      FlattenFirst(open, PageGroups(pages, k + 1, size, overlap, [k + 1]));
    } else {
      PagesConserved(pages, k + 1, size, overlap, open + [k + 1]);
      NumbersFirst(k, |pages|);
      Assoc(open, [k + 1], Numbers(k + 1, |pages|));
    }
  }

  ghost predicate CountsAreLengths(pages: seq<DocumentPage>) {
    forall k :: 0 <= k < |pages| ==> pages[k].charCount == |pages[k].pageContent|
  }

  /** Pages fit together when their texts with blank lines between them do; a single page always fits. */
  ghost function FitsPages(pages: seq<DocumentPage>, size: int): seq<nat> -> bool {
    group => |group| == 1 || |PagesText(pages, group)| <= size + 2
  }

  lemma {:induction false} PagesTextLength(pages: seq<DocumentPage>, group: seq<nat>, i: nat, j: nat)
    requires i <= j <= |group|
    ensures |PagesText(pages, group[i..j])| <= |PagesText(pages, group)|
    decreases |group|
  {
    if i > 0 {
      assert group[i..j] == group[1..][i - 1..j - 1];
      PagesTextLength(pages, group[1..], i - 1, j - 1);
    } else if j > 0 {
      assert group[i..j][1..] == group[1..][..j - 1];
      PagesTextLength(pages, group[1..], 0, j - 1);
    }
  }

  lemma FitsPagesHereditary(pages: seq<DocumentPage>, size: int)
    ensures Hereditary(FitsPages(pages, size))
  {
    var fits := FitsPages(pages, size);
    forall g: seq<nat>, i: nat, j: nat | fits(g) && i < j <= |g| ensures fits(g[i..j]) {
      PagesTextLength(pages, g, i, j);
    }
  }

  lemma {:induction false} PageGroupsGreedy(pages: seq<DocumentPage>, k: nat, size: int, open: seq<nat>)
    requires k <= |pages| && (k > 0 ==> open != []) && CountsAreLengths(pages)
    ensures IsGreedy(PageGroups(pages, k, size, 0, open), FitsPages(pages, size))
    ensures
      var groups := PageGroups(pages, k, size, 0, open);
      open != [] ==> groups != [] && open <= groups[0]
    decreases |pages| - k
  {
    if k == |pages| {
      assert open != [] ==> [open][1..] == [];
    } else {
      TakePage(pages, open, k + 1);
      if NoRoom(pages, k, size, 0, open) {
        var after := PageGroups(pages, k + 1, size, 0, [k + 1]);
        CloseGroup(pages, k, size, 0, open);
        PageGroupsGreedy(pages, k + 1, size, [k + 1]);
        assert ([open] + after)[1..] == after;
        assert "" + PagesText(pages, open) == PagesText(pages, open);
      } else {
        KeepGroup(pages, k, size, 0, open);
        PageGroupsGreedy(pages, k + 1, size, open + [k + 1]);
      }
    }
  }

  /** With no overlap and true character counts, no way to group the pages uses fewer chunks. */
  lemma PackingIsOptimal(pages: seq<DocumentPage>, size: int, other: seq<seq<nat>>)
    requires CountsAreLengths(pages) && IsGrouping(other, Numbers(0, |pages|), FitsPages(pages, size))
    ensures |PageGroups(pages, 0, size, 0, [])| <= |other|
  {
    var groups := PageGroups(pages, 0, size, 0, []);
    PageGroupsGreedy(pages, 0, size, []);
    PagesConserved(pages, 0, size, 0, []);
    FitsPagesHereditary(pages, size);
    assert [] + Numbers(0, |pages|) == Numbers(0, |pages|);
    GreedyIsOptimal(groups, other, Numbers(0, |pages|), FitsPages(pages, size));
  }

  predicate PackedWithin(pages: seq<DocumentPage>, groups: seq<seq<nat>>, overlap: int, bound: int) {
    forall j :: 0 <= j < |groups| ==> GroupWithin(pages, groups[j], overlap, bound)
  }

  /** A chunk of these pages, if there are several, has at most `bound` symbols. */
  predicate GroupWithin(pages: seq<DocumentPage>, group: seq<nat>, overlap: int, bound: int) {
    |group| > 1 ==> |ChunkText(pages, group, overlap)| <= bound
  }

  lemma WithinOneMore(pages: seq<DocumentPage>, groups: seq<seq<nat>>, last: seq<nat>, overlap: int, bound: int)
    requires PackedWithin(pages, groups, overlap, bound) && GroupWithin(pages, last, overlap, bound)
    ensures PackedWithin(pages, groups + [last], overlap, bound)
  {
    var all := groups + [last];
    forall j | 0 <= j < |all| ensures GroupWithin(pages, all[j], overlap, bound) {
      assert j < |groups| ==> all[j] == groups[j];
    }
  }

  lemma RoomForPage(pages: seq<DocumentPage>, k: nat, size: int, overlap: int, open: seq<nat>)
    requires k < |pages| && (k > 0 <==> open != []) && CountsAreLengths(pages) && !NoRoom(pages, k, size, overlap, open)
    ensures GroupWithin(pages, open + [k + 1], overlap, size + 2)
  {
    TakeChunk(pages, open, k + 1, overlap);
  }

  /** A chunk of several pages exceeds the size by at most the blank line behind its last page. */
  lemma PackedSize(pages: seq<DocumentPage>, size: int, overlap: int)
    requires CountsAreLengths(pages)
    ensures PackedWithin(pages, PageGroups(pages, 0, size, overlap, []), overlap, size + 2)
  {
    var closed: seq<seq<nat>>, open: seq<nat> := [], [];
    for k := 0 to |pages|
      invariant (closed, open) == Taken(pages, k, size, overlap) && (k > 0 <==> open != [])
      invariant PackedWithin(pages, closed, overlap, size + 2) && GroupWithin(pages, open, overlap, size + 2)
    {
      var c, o := TakenIs(pages, k, size, overlap);
      if NoRoom(pages, k, size, overlap, open) {
        WithinOneMore(pages, closed, open, overlap, size + 2);
        closed, open := closed + [open], [k + 1];
      } else {
        RoomForPage(pages, k, size, overlap, open);
        open := open + [k + 1];
      }
    }
    AllTaken(pages, size, overlap);
    LastGroups(pages, size, overlap, closed, open);
    WithinOneMore(pages, closed, open, overlap, size + 2);
  }

  /** A page that leaves room for its blank line, and an empty page. */
  function TightPages(size: nat): seq<DocumentPage>
    requires size >= 2
  {
    [DocumentPage(Repeat('a', size - 2), size - 2), DocumentPage("", 0)]
  }

  /** For every size of at least two, some chunk of two pages is two symbols larger than the size. */
  lemma PackedSizeIsTight(size: nat, overlap: int)
    requires size >= 2
    ensures
      var pages := TightPages(size);
      && CountsAreLengths(pages)
      && PageGroups(pages, 0, size, overlap, []) == [[1, 2]]
      && |ChunkText(pages, [1, 2], overlap)| == size + 2
  {
    var pages := TightPages(size);
    assert [1, 2][1..] == [2] && [2][1..] == [] && [1][1..] == [];
    assert [] + [1] == [1] && [1] + [2] == [1, 2];
    assert |PagesText(pages, [2])| == 2;
    assert |PagesText(pages, [1])| == size;
    assert PageGroups(pages, 2, size, overlap, [1, 2]) == [[1, 2]];
    assert PageGroups(pages, 1, size, overlap, [1]) == [[1, 2]];
  }

  predicate SinglePages(groups: seq<seq<nat>>) {
    forall k :: 0 <= k < |groups| ==> |groups[k]| == 1
  }

  lemma SingleFirst(first: seq<nat>, rest: seq<seq<nat>>)
    requires |first| == 1 && SinglePages(rest)
    ensures SinglePages([first] + rest)
  {
  }

  /** Below two the blank line alone fills a chunk. */
  lemma {:induction false} TinyGroups(pages: seq<DocumentPage>, k: nat, size: int, overlap: int, open: seq<nat>)
    requires k <= |pages| && CountsAreLengths(pages) && size < 2 && (if k == 0 then open == [] else |open| == 1)
    ensures SinglePages(PageGroups(pages, k, size, overlap, open))
    decreases |pages| - k
  {
    if 0 < k < |pages| {
      assert NoRoom(pages, k, size, overlap, open);
      TinyGroups(pages, k + 1, size, overlap, [k + 1]);
      SingleFirst(open, PageGroups(pages, k + 1, size, overlap, [k + 1]));
    } else if k < |pages| {
      assert [] + [k + 1] == [k + 1];
      TinyGroups(pages, k + 1, size, overlap, [k + 1]);
    }
  }

  ghost predicate SizeHolds(size: int) {
    forall pages, overlap ::
      CountsAreLengths(pages) ==> PackedWithin(pages, PageGroups(pages, 0, size, overlap, []), overlap, size)
  }

  /**
   * Chunks of several pages stay within the size, for all documents and overlaps, only for sizes that allow no such
   * chunk.
   */
  lemma SizeHoldsIff(size: int)
    ensures SizeHolds(size) <==> size < 2
  {
    if size < 2 {
      forall pages, overlap | CountsAreLengths(pages)
        ensures PackedWithin(pages, PageGroups(pages, 0, size, overlap, []), overlap, size) {
        TinyGroups(pages, 0, size, overlap, []);
      }
    } else {
      PackedSizeIsTight(size, 0);
      var pages := TightPages(size);
      assert PageGroups(pages, 0, size, 0, [])[0] == [1, 2];
      assert !PackedWithin(pages, PageGroups(pages, 0, size, 0, []), 0, size);
    }
  }

  // ---------- page texts ----------

  /** The texts of all chunks, in order. */
  function AllText(pages: seq<DocumentPage>, groups: seq<seq<nat>>, overlap: int): string
    requires NonEmptyPages(groups)
  {
    if groups == [] then "" else ChunkText(pages, groups[0], overlap) + AllText(pages, groups[1..], overlap)
  }

  lemma {:induction false} PagesTextAppend(pages: seq<DocumentPage>, a: seq<nat>, b: seq<nat>)
    ensures PagesText(pages, a + b) == PagesText(pages, a) + PagesText(pages, b)
  {
    if a == [] {
      assert a + b == b;
    } else {
      assert (a + b)[1..] == a[1..] + b;
      PagesTextAppend(pages, a[1..], b);
      Assoc(PageText(pages, a[0]) + BLANK, PagesText(pages, a[1..]), PagesText(pages, b));
    }
  }

  lemma {:induction false} GroupsText(pages: seq<DocumentPage>, groups: seq<seq<nat>>, overlap: int)
    requires NonEmptyPages(groups) && overlap <= 0
    ensures AllText(pages, groups, overlap) == PagesText(pages, Flatten(groups))
  {
    if groups != [] {
      GroupsText(pages, groups[1..], overlap);
      PagesTextAppend(pages, groups[0], Flatten(groups[1..]));
      assert "" + PagesText(pages, groups[0]) == PagesText(pages, groups[0]);
    }
  }

  /** Without overlap the chunks, put together, are the pages in order, each with its blank line. */
  lemma PageTextsConserved(pages: seq<DocumentPage>, size: int, overlap: int)
    requires overlap <= 0
    ensures NonEmptyPages(PageGroups(pages, 0, size, overlap, []))
    ensures AllText(pages, PageGroups(pages, 0, size, overlap, []), overlap) == PagesText(pages, Numbers(0, |pages|))
  {
    PagesConserved(pages, 0, size, overlap, []);
    assert [] + Numbers(0, |pages|) == Numbers(0, |pages|);
    GroupsText(pages, PageGroups(pages, 0, size, overlap, []), overlap);
  }

  /** A chunk of one page holds the page, two blank lines and at most `overlap` symbols of the page before. */
  lemma SinglePageSize(pages: seq<DocumentPage>, number: nat, overlap: int)
    requires 1 <= number <= |pages|
    ensures |ChunkText(pages, [number], overlap)| <= |pages[number - 1].pageContent| + 2
      + (if overlap > 0 then overlap + 2 else 0)
    ensures IsSuffix(pages[number - 1].pageContent + BLANK, ChunkText(pages, [number], overlap))
  {
    TakeChunk(pages, [], number, overlap);
    assert [] + [number] == [number];
    Assoc(Carried(pages, number, overlap), pages[number - 1].pageContent, BLANK);
  }
}
