/** What PDF chunks hold. */
module PdfLaws {
  // Told from the pages and the emitted chunks alone: the pages of a chunk, what it repeats from the page before, and
  // why it was closed.

  import opened Text
  import opened Documents
  import RagChunker
  import opened PdfPages

  // ---------- the pages of a chunk ----------

  predicate InRange(pages: seq<DocumentPage>, numbers: seq<nat>) {
    forall i :: 0 <= i < |numbers| ==> 1 <= numbers[i] <= |pages|
  }

  /** The pages with these numbers, each with its blank line. */
  function OwnText(pages: seq<DocumentPage>, numbers: seq<nat>): string
    requires InRange(pages, numbers)
  {
    if numbers == [] then "" else pages[numbers[0] - 1].pageContent + "\n\n" + OwnText(pages, numbers[1..])
  }

  lemma {:induction false} PagesTextIs(pages: seq<DocumentPage>, numbers: seq<nat>)
    requires InRange(pages, numbers)
    ensures PagesText(pages, numbers) == OwnText(pages, numbers)
  {
    if numbers != [] {
      PagesTextIs(pages, numbers[1..]);
    }
  }

  lemma FirstNumbers(first: seq<nat>, rest: seq<nat>, a: nat, n: nat)
    requires a <= n && first + rest == Numbers(a, n)
    ensures a + |first| <= n && first == Numbers(a, a + |first|) && rest == Numbers(a + |first|, n)
  {
    assert |first + rest| == n - a;
    assert forall i :: 0 <= i < |first| ==> first[i] == (first + rest)[i];
    assert forall i :: 0 <= i < |rest| ==> rest[i] == (first + rest)[|first| + i];
  }

  /** Where group `k` starts when the groups hold the numbers from `a + 1` on, in order. */
  lemma {:induction false} GroupAt(groups: seq<seq<nat>>, a: nat, n: nat, k: nat) returns (x: nat)
    requires a <= n && NonEmptyPages(groups) && Flatten(groups) == Numbers(a, n) && k < |groups|
    ensures a <= x && x + |groups[k]| <= n && groups[k] == Numbers(x, x + |groups[k]|)
    ensures k == 0 ==> x == a
    ensures k + 1 < |groups| ==> groups[k + 1][0] == x + |groups[k]| + 1
  {
    FirstNumbers(groups[0], Flatten(groups[1..]), a, n);
    var b := a + |groups[0]|;
    if k == 0 {
      x := a;
      if |groups| > 1 {
        var y := GroupAt(groups[1..], b, n, 0);
        assert groups[1][0] == Numbers(y, y + |groups[1]|)[0];
      }
    } else {
      x := GroupAt(groups[1..], b, n, k - 1);
    }
  }

  predicate IsChunk(pages: seq<DocumentPage>, chunk: DocumentChunk, group: seq<nat>, overlap: int) {
    group != [] && chunk.meta == PageMeta(group) &&
    chunk.content == Carried(pages, group[0], overlap) + PagesText(pages, group)
  }

  /** The chunks are those of the groups, which hold every page once and in order. */
  predicate AreChunks(pages: seq<DocumentPage>, chunks: seq<DocumentChunk>, groups: seq<seq<nat>>, overlap: int) {
    && |chunks| == |groups| && NonEmptyPages(groups) && Flatten(groups) == Numbers(0, |pages|)
    && forall k {:trigger IsChunk(pages, chunks[k], groups[k], overlap)} :: 0 <= k < |groups| ==>
      IsChunk(pages, chunks[k], groups[k], overlap)
  }

  lemma MadeAre(pages: seq<DocumentPage>, groups: seq<seq<nat>>, overlap: int)
    requires NonEmptyPages(groups) && Flatten(groups) == Numbers(0, |pages|)
    ensures AreChunks(pages, MakeChunks(pages, groups, overlap, 1), groups, overlap)
  {
    var chunks := MakeChunks(pages, groups, overlap, 1);
    forall k | 0 <= k < |groups| ensures IsChunk(pages, chunks[k], groups[k], overlap) {
      assert chunks[k] == MakeChunk(pages, groups[k], overlap, 1 + k);
    }
  }

  /** The groups behind the emitted chunks. */
  lemma GroupsBehind(pages: seq<DocumentPage>, config: RagChunker.ChunkingConfig, chunks: seq<DocumentChunk>)
    returns (groups: seq<seq<nat>>)
    requires IsPacked(pages, config, chunks)
    ensures AreChunks(pages, chunks, groups, config.overlapSize)
    ensures ClosedLate(pages, config.chunkSize, config.overlapSize, groups)
  {
    groups := PageGroups(pages, 0, config.chunkSize, config.overlapSize, []);
    PagesConserved(pages, 0, config.chunkSize, config.overlapSize, []);
    assert [] + Numbers(0, |pages|) == Numbers(0, |pages|);
    MadeAre(pages, groups, config.overlapSize);
    GroupsCloseLate(pages, config.chunkSize, config.overlapSize);
  }

  // ---------- what a chunk repeats ----------

  /** The last symbols of a page that the next chunk repeats, with the blank line behind them. */
  function Repeated(page: string, overlap: int): string {
    if overlap <= 0 then "" else (if |page| <= overlap then page else page[|page| - overlap..]) + "\n\n"
  }

  /** What chunk `j` repeats: nothing in the first chunk, else the end of the last page of the chunk before it. */
  function RepeatedBy(pages: seq<DocumentPage>, chunks: seq<DocumentChunk>, overlap: int, j: nat): string
    requires j < |chunks|
    requires AllPaged(pages, chunks)
  {
    if j == 0 then ""
    else
      var before := chunks[j - 1].meta.pages;
      Repeated(pages[before[|before| - 1] - 1].pageContent, overlap)
  }

  lemma GroupInRange(pages: seq<DocumentPage>, groups: seq<seq<nat>>, j: nat)
    requires NonEmptyPages(groups) && Flatten(groups) == Numbers(0, |pages|) && j < |groups|
    ensures InRange(pages, groups[j])
  {
    var x := GroupAt(groups, 0, |pages|, j);
    assert groups[j] == Numbers(x, x + |groups[j]|);
  }

  lemma CarriedIs(pages: seq<DocumentPage>, first: nat, overlap: int)
    requires 2 <= first <= |pages|
    ensures Carried(pages, first, overlap) == Repeated(pages[first - 2].pageContent, overlap)
  {
  }

  lemma NothingCarried(pages: seq<DocumentPage>, overlap: int)
    ensures Carried(pages, 1, overlap) == ""
  {
  }

  /** A group starts behind the last page of the group before it. */
  lemma GroupFollows(pages: seq<DocumentPage>, groups: seq<seq<nat>>, j: nat)
    requires NonEmptyPages(groups) && Flatten(groups) == Numbers(0, |pages|) && j < |groups|
    ensures j == 0 ==> groups[j][0] == 1
    ensures j > 0 ==> groups[j][0] == groups[j - 1][|groups[j - 1]| - 1] + 1
  {
    if j == 0 {
      var x := GroupAt(groups, 0, |pages|, 0);
      assert Numbers(x, x + |groups[0]|)[0] == 1;
    } else {
      var y := GroupAt(groups, 0, |pages|, j - 1);
      assert Numbers(y, y + |groups[j - 1]|)[|groups[j - 1]| - 1] == y + |groups[j - 1]|;
    }
  }

  predicate IsPaged(pages: seq<DocumentPage>, chunk: DocumentChunk) {
    chunk.meta.PageMeta? && chunk.meta.pages != [] && InRange(pages, chunk.meta.pages)
  }

  predicate AllPaged(pages: seq<DocumentPage>, chunks: seq<DocumentChunk>) {
    forall k :: 0 <= k < |chunks| ==> IsPaged(pages, chunks[k])
  }

  lemma AreAllPaged(pages: seq<DocumentPage>, chunks: seq<DocumentChunk>, groups: seq<seq<nat>>, overlap: int)
    requires AreChunks(pages, chunks, groups, overlap)
    ensures AllPaged(pages, chunks)
  {
    forall k | 0 <= k < |chunks| ensures IsPaged(pages, chunks[k]) {
      GroupInRange(pages, groups, k);
      assert IsChunk(pages, chunks[k], groups[k], overlap);
    }
  }

  /** What is repeated behind page `last`; behind no page, nothing. */
  function RepeatedBehind(pages: seq<DocumentPage>, last: nat, overlap: int): string
    requires last <= |pages|
  {
    if last == 0 then "" else Repeated(pages[last - 1].pageContent, overlap)
  }

  lemma CarriedBehind(pages: seq<DocumentPage>, last: nat, overlap: int)
    requires last < |pages|
    ensures Carried(pages, last + 1, overlap) == RepeatedBehind(pages, last, overlap)
  {
    if last == 0 {
      NothingCarried(pages, overlap);
    } else {
      CarriedIs(pages, last + 1, overlap);
    }
  }

  lemma RepeatedAt(pages: seq<DocumentPage>, chunks: seq<DocumentChunk>, overlap: int, j: nat, last: nat)
    requires AllPaged(pages, chunks) && j < |chunks| && (j == 0 ==> last == 0)
    requires j > 0 ==> IsPaged(pages, chunks[j - 1])
    requires j > 0 ==> last == chunks[j - 1].meta.pages[|chunks[j - 1].meta.pages| - 1] && 0 < last <= |pages|
    ensures last <= |pages| && RepeatedBy(pages, chunks, overlap, j) == RepeatedBehind(pages, last, overlap)
  {
  }

  lemma PutTogether(whole: string, a: string, b: string, c: string, d: string)
    requires whole == a + b && a == c && b == d
    ensures whole == c + d
  {
  }

  lemma ContentBehind(pages: seq<DocumentPage>, chunk: DocumentChunk, group: seq<nat>, last: nat, overlap: int)
    requires IsChunk(pages, chunk, group, overlap) && InRange(pages, group) && group[0] == last + 1
    ensures last < |pages| && chunk.content == RepeatedBehind(pages, last, overlap) + OwnText(pages, group)
  {
    CarriedBehind(pages, last, overlap);
    PagesTextIs(pages, group);
    PutTogether(chunk.content, Carried(pages, group[0], overlap), PagesText(pages, group),
                RepeatedBehind(pages, last, overlap), OwnText(pages, group));
  }

  lemma MetaIs(pages: seq<DocumentPage>, chunks: seq<DocumentChunk>, groups: seq<seq<nat>>, overlap: int, j: nat)
    requires AreChunks(pages, chunks, groups, overlap) && j < |chunks|
    ensures IsChunk(pages, chunks[j], groups[j], overlap) && chunks[j].meta == PageMeta(groups[j])
  {
    assert IsChunk(pages, chunks[j], groups[j], overlap);
  }

  /** Chunk `j` and its group. */
  lemma ChunkAt(pages: seq<DocumentPage>, chunks: seq<DocumentChunk>, groups: seq<seq<nat>>, overlap: int, j: nat)
    returns (group: seq<nat>)
    requires AreChunks(pages, chunks, groups, overlap) && AllPaged(pages, chunks) && j < |chunks|
    ensures IsChunk(pages, chunks[j], group, overlap) && chunks[j].meta == PageMeta(group) && InRange(pages, group)
    ensures group == groups[j] && IsPaged(pages, chunks[j])
  {
    group := groups[j];
    MetaIs(pages, chunks, groups, overlap, j);
    assert IsPaged(pages, chunks[j]);
  }

  /** The last page of the group before a group. */
  lemma LastBefore(pages: seq<DocumentPage>, chunks: seq<DocumentChunk>, groups: seq<seq<nat>>, overlap: int, j: nat,
                   group: seq<nat>)
    returns (last: nat)
    requires AreChunks(pages, chunks, groups, overlap) && AllPaged(pages, chunks) && j < |chunks|
    requires group == groups[j] && group != []
    ensures group[0] == last + 1 && (j == 0 ==> last == 0)
    ensures j > 0 ==> IsPaged(pages, chunks[j - 1])
    ensures j > 0 ==> last == chunks[j - 1].meta.pages[|chunks[j - 1].meta.pages| - 1]
  {
    GroupFollows(pages, groups, j);
    last := 0;
    if j > 0 {
      var before := ChunkAt(pages, chunks, groups, overlap, j - 1);
      last := before[|before| - 1];
    }
  }

  lemma ContentFrom(pages: seq<DocumentPage>, chunks: seq<DocumentChunk>, overlap: int, j: nat, group: seq<nat>,
                    last: nat)
    requires AllPaged(pages, chunks) && j < |chunks| && (j == 0 ==> last == 0)
    requires IsChunk(pages, chunks[j], group, overlap) && InRange(pages, group) && group[0] == last + 1
    requires j > 0 ==> IsPaged(pages, chunks[j - 1])
    requires j > 0 ==> last == chunks[j - 1].meta.pages[|chunks[j - 1].meta.pages| - 1]
    ensures chunks[j].content == RepeatedBy(pages, chunks, overlap, j) + OwnText(pages, group)
  {
    ContentBehind(pages, chunks[j], group, last, overlap);
    RepeatedAt(pages, chunks, overlap, j, last);
  }

  lemma ContentIs(pages: seq<DocumentPage>, chunks: seq<DocumentChunk>, groups: seq<seq<nat>>, overlap: int, j: nat)
    requires AreChunks(pages, chunks, groups, overlap) && AllPaged(pages, chunks) && j < |chunks|
    ensures groups[j] == chunks[j].meta.pages
    ensures chunks[j].content == RepeatedBy(pages, chunks, overlap, j) + OwnText(pages, chunks[j].meta.pages)
  {
    var group := ChunkAt(pages, chunks, groups, overlap, j);
    var last := LastBefore(pages, chunks, groups, overlap, j, group);
    ContentFrom(pages, chunks, overlap, j, group, last);
  }

  /**
   * Every chunk is, in this order: with a positive overlap and a chunk before it, the last symbols of that chunk's last
   * page and a blank line; then exactly its own pages, each with a blank line.
   */
  lemma ChunkHolds(pages: seq<DocumentPage>, config: RagChunker.ChunkingConfig, chunks: seq<DocumentChunk>, j: nat)
    requires IsPacked(pages, config, chunks) && j < |chunks|
    ensures AllPaged(pages, chunks)
    ensures chunks[j].content
      == RepeatedBy(pages, chunks, config.overlapSize, j) + OwnText(pages, chunks[j].meta.pages)
  {
    var groups := GroupsBehind(pages, config, chunks);
    AreAllPaged(pages, chunks, groups, config.overlapSize);
    ContentIs(pages, chunks, groups, config.overlapSize, j);
  }

  // ---------- nothing is lost, whatever the overlap ----------

  /** The contents without what they repeat. */
  function FreshTexts(pages: seq<DocumentPage>, chunks: seq<DocumentChunk>, overlap: int): (r: seq<string>)
    requires AllPaged(pages, chunks)
    ensures |r| == |chunks|
  {
    seq(|chunks|, k requires 0 <= k < |chunks| =>
      Behind(RepeatedBy(pages, chunks, overlap, k), chunks[k].content))
  }

  /** `s` without its first `|start|` symbols. */
  function Behind(start: string, s: string): string {
    if |start| <= |s| then s[|start|..] else ""
  }

  lemma {:induction false} OwnTextAppend(pages: seq<DocumentPage>, a: seq<nat>, b: seq<nat>)
    requires InRange(pages, a) && InRange(pages, b)
    ensures InRange(pages, a + b) && OwnText(pages, a + b) == OwnText(pages, a) + OwnText(pages, b)
  {
    if a == [] {
      assert a + b == b;
    } else {
      assert (a + b)[0] == a[0] && (a + b)[1..] == a[1..] + b;
      OwnTextAppend(pages, a[1..], b);
      Assoc(pages[a[0] - 1].pageContent + "\n\n", OwnText(pages, a[1..]), OwnText(pages, b));
    }
  }

  predicate AllOwn(pages: seq<DocumentPage>, groups: seq<seq<nat>>, texts: seq<string>) {
    |texts| == |groups| && forall k :: 0 <= k < |groups| ==> IsOwn(pages, groups[k], texts[k])
  }

  predicate IsOwn(pages: seq<DocumentPage>, group: seq<nat>, text: string) {
    InRange(pages, group) && text == OwnText(pages, group)
  }

  lemma {:induction false} OwnTextsFlatten(pages: seq<DocumentPage>, groups: seq<seq<nat>>, texts: seq<string>)
    requires AllOwn(pages, groups, texts)
    ensures InRange(pages, Flatten(groups))
    ensures Concat(texts) == OwnText(pages, Flatten(groups))
  {
    if groups != [] {
      assert IsOwn(pages, groups[0], texts[0]);
      forall k | 0 <= k < |groups| - 1 ensures IsOwn(pages, groups[1..][k], texts[1..][k]) {
        assert IsOwn(pages, groups[k + 1], texts[k + 1]);
      }
      OwnTextsFlatten(pages, groups[1..], texts[1..]);
      OwnTextAppend(pages, groups[0], Flatten(groups[1..]));
    }
  }

  lemma DropPrefix(a: string, b: string)
    ensures Behind(a, a + b) == b
  {
  }

  lemma FreshIsOwn(pages: seq<DocumentPage>, chunks: seq<DocumentChunk>, groups: seq<seq<nat>>, overlap: int)
    requires AreChunks(pages, chunks, groups, overlap) && AllPaged(pages, chunks)
    ensures AllOwn(pages, groups, FreshTexts(pages, chunks, overlap))
  {
    forall k | 0 <= k < |groups| ensures IsOwn(pages, groups[k], FreshTexts(pages, chunks, overlap)[k]) {
      GroupInRange(pages, groups, k);
      ContentIs(pages, chunks, groups, overlap, k);
      DropPrefix(RepeatedBy(pages, chunks, overlap, k), OwnText(pages, groups[k]));
    }
  }

  /** For every overlap the chunks without what they repeat, put together, are all pages in order. */
  lemma FreshPagesConserved(pages: seq<DocumentPage>, config: RagChunker.ChunkingConfig, chunks: seq<DocumentChunk>)
    requires IsPacked(pages, config, chunks)
    ensures AllPaged(pages, chunks)
    ensures Concat(FreshTexts(pages, chunks, config.overlapSize)) == OwnText(pages, Numbers(0, |pages|))
  {
    var groups := GroupsBehind(pages, config, chunks);
    AreAllPaged(pages, chunks, groups, config.overlapSize);
    FreshIsOwn(pages, chunks, groups, config.overlapSize);
    OwnTextsFlatten(pages, groups, FreshTexts(pages, chunks, config.overlapSize));
  }

  // ---------- chunks are closed late ----------

  /** The next chunk's first page did not fit. */
  predicate DidNotFit(pages: seq<DocumentPage>, size: int, overlap: int, group: seq<nat>, next: seq<nat>) {
    && group != [] && next != [] && 1 <= next[0] <= |pages|
    && |Carried(pages, group[0], overlap) + PagesText(pages, group)| + pages[next[0] - 1].charCount > size
  }

  predicate ClosedLate(pages: seq<DocumentPage>, size: int, overlap: int, groups: seq<seq<nat>>) {
    forall j :: 0 < j < |groups| ==> DidNotFit(pages, size, overlap, groups[j - 1], groups[j])
  }

  lemma ClosedOneMore(pages: seq<DocumentPage>, size: int, overlap: int, groups: seq<seq<nat>>, last: seq<nat>)
    requires ClosedLate(pages, size, overlap, groups)
    requires groups != [] ==> DidNotFit(pages, size, overlap, groups[|groups| - 1], last)
    ensures ClosedLate(pages, size, overlap, groups + [last])
  {
    var all := groups + [last];
    forall j | 0 < j < |all| ensures DidNotFit(pages, size, overlap, all[j - 1], all[j]) {
      if j < |groups| {
        assert DidNotFit(pages, size, overlap, groups[j - 1], groups[j]);
      }
    }
  }

  /** The groups so far, and the open one behind them. */
  predicate LateSoFar(pages: seq<DocumentPage>, size: int, overlap: int, closed: seq<seq<nat>>, open: seq<nat>) {
    && ClosedLate(pages, size, overlap, closed)
    && (closed != [] ==> DidNotFit(pages, size, overlap, closed[|closed| - 1], open))
  }

  lemma NoRoomMeans(pages: seq<DocumentPage>, k: nat, size: int, overlap: int, open: seq<nat>)
    requires k < |pages| && (k > 0 ==> open != []) && NoRoom(pages, k, size, overlap, open)
    ensures DidNotFit(pages, size, overlap, open, [k + 1])
  {
  }

  lemma LateClose(pages: seq<DocumentPage>, size: int, overlap: int, closed: seq<seq<nat>>, open: seq<nat>, k: nat)
    requires LateSoFar(pages, size, overlap, closed, open) && DidNotFit(pages, size, overlap, open, [k + 1])
    ensures LateSoFar(pages, size, overlap, closed + [open], [k + 1])
  {
    ClosedOneMore(pages, size, overlap, closed, open);
  }

  lemma LateKeep(pages: seq<DocumentPage>, size: int, overlap: int, closed: seq<seq<nat>>, open: seq<nat>, k: nat)
    requires LateSoFar(pages, size, overlap, closed, open) && (open == [] ==> closed == [])
    ensures LateSoFar(pages, size, overlap, closed, open + [k + 1])
  {
    if closed != [] {
      SameFirst(pages, size, overlap, closed[|closed| - 1], open, open + [k + 1]);
    }
  }

  lemma SameFirst(pages: seq<DocumentPage>, size: int, overlap: int, group: seq<nat>, a: seq<nat>, b: seq<nat>)
    requires a != [] && b != [] && a[0] == b[0] && DidNotFit(pages, size, overlap, group, a)
    ensures DidNotFit(pages, size, overlap, group, b)
  {
  }

  lemma FirstClosesNothing(pages: seq<DocumentPage>, size: int, overlap: int)
    ensures Taken(pages, 0, size, overlap) == ([], []) && LateSoFar(pages, size, overlap, [], [])
  {
  }

  lemma TakenLate(pages: seq<DocumentPage>, size: int, overlap: int) returns (closed: seq<seq<nat>>, open: seq<nat>)
    ensures (closed, open) == Taken(pages, |pages|, size, overlap) && LateSoFar(pages, size, overlap, closed, open)
    ensures open == [] ==> closed == []
  {
    FirstClosesNothing(pages, size, overlap);
    closed, open := [], [];
    for k := 0 to |pages|
      invariant (closed, open) == Taken(pages, k, size, overlap) && LateSoFar(pages, size, overlap, closed, open)
      invariant (k > 0 <==> open != []) && (k == 0 ==> closed == [])
    {
      var c, o := TakenIs(pages, k, size, overlap);
      if NoRoom(pages, k, size, overlap, open) {
        NoRoomMeans(pages, k, size, overlap, open);
        LateClose(pages, size, overlap, closed, open, k);
        closed, open := closed + [open], [k + 1];
      } else {
        LateKeep(pages, size, overlap, closed, open, k);
        open := open + [k + 1];
      }
    }
  }

  lemma GroupsCloseLate(pages: seq<DocumentPage>, size: int, overlap: int)
    ensures ClosedLate(pages, size, overlap, PageGroups(pages, 0, size, overlap, []))
  {
    var closed, open := TakenLate(pages, size, overlap);
    AllTaken(pages, size, overlap);
    LastGroups(pages, size, overlap, closed, open);
    if open != [] {
      ClosedOneMore(pages, size, overlap, closed, open);
    }
  }

  /** Whatever the overlap, a chunk was closed only because the first page of the next one did not fit. */
  lemma ChunksCloseLate(pages: seq<DocumentPage>, config: RagChunker.ChunkingConfig, chunks: seq<DocumentChunk>, j: nat)
    requires IsPacked(pages, config, chunks) && 0 < j < |chunks|
    ensures AllPaged(pages, chunks)
    ensures |chunks[j - 1].content| + pages[chunks[j].meta.pages[0] - 1].charCount > config.chunkSize
  {
    var groups := GroupsBehind(pages, config, chunks);
    AreAllPaged(pages, chunks, groups, config.overlapSize);
    LateIn(pages, config.chunkSize, config.overlapSize, chunks, groups, j);
  }

  lemma LateIn(pages: seq<DocumentPage>, size: int, overlap: int, chunks: seq<DocumentChunk>, groups: seq<seq<nat>>,
               j: nat)
    requires AreChunks(pages, chunks, groups, overlap) && 0 < j < |chunks| && ClosedLate(pages, size, overlap, groups)
    requires IsPaged(pages, chunks[j])
    ensures |chunks[j - 1].content| + pages[chunks[j].meta.pages[0] - 1].charCount > size
  {
    var before, next := Pair(pages, size, overlap, chunks, groups, j);
    NotFitMeans(pages, size, overlap, chunks[j - 1], chunks[j], before, next);
  }

  lemma Pair(pages: seq<DocumentPage>, size: int, overlap: int, chunks: seq<DocumentChunk>, groups: seq<seq<nat>>,
             j: nat)
    returns (before: seq<nat>, next: seq<nat>)
    requires AreChunks(pages, chunks, groups, overlap) && 0 < j < |chunks| && ClosedLate(pages, size, overlap, groups)
    ensures IsChunk(pages, chunks[j - 1], before, overlap) && chunks[j].meta == PageMeta(next)
    ensures DidNotFit(pages, size, overlap, before, next)
  {
    before, next := groups[j - 1], groups[j];
    MetaIs(pages, chunks, groups, overlap, j - 1);
    MetaIs(pages, chunks, groups, overlap, j);
  }

  lemma NotFitMeans(pages: seq<DocumentPage>, size: int, overlap: int, chunk: DocumentChunk, next: DocumentChunk,
                    group: seq<nat>, nextGroup: seq<nat>)
    requires IsChunk(pages, chunk, group, overlap) && DidNotFit(pages, size, overlap, group, nextGroup)
    requires IsPaged(pages, next) && next.meta == PageMeta(nextGroup)
    ensures |chunk.content| + pages[next.meta.pages[0] - 1].charCount > size
  {
  }
}
