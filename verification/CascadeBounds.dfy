/** Size, overlap and number of chunks. */
module CascadeBounds {
  // How large a chunk gets, what it carries over, and how few chunks there are.

  import opened Wrappers
  import opened Text
  import opened Greedy
  import opened Cascade
  import opened CascadeProofs

  predicate NonEmptyParts(parts: seq<string>) {
    forall k :: 0 <= k < |parts| ==> parts[k] != ""
  }

  // ---------- what a chunk carries over ----------

  /** `p` starts with nothing but a short suffix of the chunk before it and at most two separators. */
  ghost predicate Linked(p: Piece, prev: Option<string>, seps: seq<string>, overlap: nat) {
    || (p.tail == "" && p.glue == "")
    || (prev.Some? && 0 < |p.tail| <= overlap && IsSuffix(p.tail, prev.value) && IsGlue(p.glue, seps))
  }

  ghost predicate IsGlue(glue: string, seps: seq<string>) {
    glue == "" || exists sep :: sep in seps && (glue == sep || glue == sep + sep)
  }

  function Before(pieces: seq<Piece>, k: nat, prev: Option<string>): Option<string>
    requires k < |pieces|
  {
    if k == 0 then prev else Some(pieces[k - 1].Text())
  }

  ghost predicate Chained(pieces: seq<Piece>, prev: Option<string>, seps: seq<string>, overlap: nat) {
    forall k :: 0 <= k < |pieces| ==> Linked(pieces[k], Before(pieces, k, prev), seps, overlap)
  }

  lemma ChainedCons(p: Piece, rest: seq<Piece>, prev: Option<string>, seps: seq<string>, overlap: nat)
    requires Linked(p, prev, seps, overlap) && Chained(rest, Some(p.Text()), seps, overlap)
    ensures Chained([p] + rest, prev, seps, overlap)
  {
    var all := [p] + rest;
    forall k | 0 <= k < |all| ensures Linked(all[k], Before(all, k, prev), seps, overlap) {
      if k > 1 {
        assert all[k] == rest[k - 1] && all[k - 1] == rest[k - 2];
        assert Before(all, k, prev) == Before(rest, k - 1, Some(p.Text()));
      } else if k == 1 {
        assert all[k] == rest[0] && Linked(rest[0], Before(rest, 0, Some(p.Text())), seps, overlap);
      }
    }
  }

  lemma ChainedAppend(a: seq<Piece>, b: seq<Piece>, seps: seq<string>, overlap: nat)
    requires Chained(a, None, seps, overlap) && Chained(b, None, seps, overlap)
    ensures Chained(a + b, None, seps, overlap)
  {
    var all := a + b;
    forall k | 0 <= k < |all| ensures Linked(all[k], Before(all, k, None), seps, overlap) {
      if k < |a| {
        assert Before(all, k, None) == Before(a, k, None);
      } else {
        assert all[k] == b[k - |a|];
        assert k > |a| ==> Before(all, k, None) == Before(b, k - |a|, None);
      }
    }
  }

  lemma {:induction false} MergedChained(style: Style, groups: seq<seq<string>>, sep: string, overlap: nat,
                                         prev: Option<string>, seps: seq<string>)
    requires NonEmptyGroups(groups) && sep in seps && sep != "" && (prev.Some? ==> prev.value != "")
    requires forall k :: 0 <= k < |groups| ==> NonEmptyParts(groups[k])
    ensures Chained(MergedPieces(style, groups, sep, overlap, prev), prev, seps, overlap)
  {
    if groups != [] {
      var piece := GroupPiece(style, groups[0], sep, overlap, prev);
      assert groups[0][0] != "";
      MergedChained(style, groups[1..], sep, overlap, Some(piece.Text()), seps);
      ChainedCons(piece, MergedPieces(style, groups[1..], sep, overlap, Some(piece.Text())), prev, seps, overlap);
    }
  }

  /** What a forced cut hands on to the next: the end of the chunk it cut off. */
  lemma HandedOn(text: string, size: nat, overlap: nat)
    requires 0 < size < |text|
    ensures IsSuffix(text[Step(size, overlap)..][..size - Step(size, overlap)], text[..size])
    ensures size - Step(size, overlap) <= overlap
  {
    var step := Step(size, overlap);
    assert text[step..][..size - step] == text[..size][step..];
  }

  lemma FirstForced(text: string, size: nat, overlap: nat, dup: nat)
    requires 0 < size < |text| && dup <= size
    ensures ForcedPieces(text, size, overlap, dup)
      == [Piece(text[..dup], "", text[dup..size])]
          + ForcedPieces(text[Step(size, overlap)..], size, overlap, size - Step(size, overlap))
    ensures Piece(text[..dup], "", text[dup..size]).Text() == text[..size]
  {
  }

  lemma {:induction false} ForcedChained(text: string, size: nat, overlap: nat, dup: nat, prev: Option<string>,
                                         seps: seq<string>)
    requires size > 0 && dup <= size && dup <= |text|
    requires dup > 0 ==> prev.Some? && dup <= overlap && IsSuffix(text[..dup], prev.value)
    ensures Chained(ForcedPieces(text, size, overlap, dup), prev, seps, overlap)
    decreases |text|
  {
    if |text| > size {
      var step := Step(size, overlap);
      HandedOn(text, size, overlap);
      FirstForced(text, size, overlap, dup);
      ForcedChained(text[step..], size, overlap, size - step, Some(text[..size]), seps);
      ChainedCons(Piece(text[..dup], "", text[dup..size]), ForcedPieces(text[step..], size, overlap, size - step),
                  prev, seps, overlap);
    }
  }

  lemma {:induction false} ForcedWithin(text: string, size: nat, overlap: nat, dup: nat)
    requires size > 0 && dup <= size && dup <= |text|
    ensures forall p :: p in ForcedPieces(text, size, overlap, dup) ==> |p.Text()| <= size
    decreases |text|
  {
    if |text| > size {
      ForcedWithin(text[Step(size, overlap)..], size, overlap, size - Step(size, overlap));
    }
  }

  lemma {:induction false} GroupPartsNonEmpty(parts: seq<string>, sep: string, size: nat, overlap: nat,
                                              open: seq<string>, len: nat)
    requires NonEmptyParts(parts)
    requires NonEmptyParts(open)
    ensures forall k :: 0 <= k < |Groups(parts, sep, size, overlap, open, len)| ==>
      NonEmptyParts(Groups(parts, sep, size, overlap, open, len)[k])
    decreases |parts|
  {
    if parts != [] {
      var part, rest := parts[0], parts[1..];
      if len == 0 {
        GroupPartsNonEmpty(rest, sep, size, overlap, [part], |part|);
      } else if len + |sep| + |part| > size {
        GroupPartsNonEmpty(rest, sep, size, overlap, [part], Restart(len, part, sep, overlap));
      } else {
        GroupPartsNonEmpty(rest, sep, size, overlap, open + [part], len + |sep| + |part|);
      }
    }
  }

  /** The open group only grows. */
  lemma {:induction false} OpenGroupStays(parts: seq<string>, sep: string, size: nat, overlap: nat,
                                          open: seq<string>, len: nat)
    requires len > 0
    ensures Groups(parts, sep, size, overlap, open, len) != [] &&
      open <= Groups(parts, sep, size, overlap, open, len)[0]
    decreases |parts|
  {
    if parts != [] && len + |sep| + |parts[0]| <= size {
      OpenGroupStays(parts[1..], sep, size, overlap, open + [parts[0]], len + |sep| + |parts[0]|);
    }
  }

  /** Without overlap a chunk is all fresh text. */
  lemma {:induction false} FreshIsAll(pieces: seq<Piece>)
    requires forall k :: 0 <= k < |pieces| ==> pieces[k].tail == "" && pieces[k].glue == ""
    ensures Concat(Texts(pieces)) == FreshText(pieces)
  {
    if pieces != [] {
      FreshIsAll(pieces[1..]);
      assert Texts(pieces)[1..] == Texts(pieces[1..]);
      assert "" + "" + pieces[0].body == pieces[0].body;
    }
  }

  // ---------- how large a chunk gets ----------

  /** The largest chunk that merging with `sep` can produce. */
  function Bound(size: nat, overlap: nat, sepLen: nat): nat {
    if overlap == 0 then size else size + overlap + 2 * sepLen
  }

  predicate AllWithin(texts: seq<string>, n: nat) {
    forall k :: 0 <= k < |texts| ==> |texts[k]| <= n
  }

  lemma FirstWithin(close: bool, first: string, left: seq<string>, n: nat)
    requires |first| <= n && AllWithin(left, n)
    ensures AllWithin((if close then [first] else []) + left, n)
  {
  }

  lemma WrittenBound(style: Style, current: string, part: string, sep: string, size: nat, overlap: nat)
    requires |part| <= size
    ensures |Written(style, current, part, sep, size, overlap)| <= Bound(size, overlap, |sep|)
  {
  }

  lemma {:induction false} RemainingBound(style: Style, rest: seq<string>, sep: string, size: nat, overlap: nat,
                                          open: seq<string>, current: string, prev: Option<string>)
    requires sep != "" && Building(style, open, current, sep, overlap, prev)
    requires |current| <= Bound(size, overlap, |sep|)
    requires AllWithin(rest, size)
    ensures AllWithin(Remaining(style, rest, sep, size, overlap, open, |current|, prev), Bound(size, overlap, |sep|))
    decreases |rest|
  {
    if rest == [] {
      RemainingDone(style, sep, size, overlap, open, |current|, prev);
    } else {
      var open', prev' := Advance(style, rest, sep, size, overlap, open, current, prev);
      var current' := Written(style, current, rest[0], sep, size, overlap);
      var left := Remaining(style, rest[1..], sep, size, overlap, open', |current'|, prev');
      WrittenBound(style, current, rest[0], sep, size, overlap);
      RemainingBound(style, rest[1..], sep, size, overlap, open', current', prev');
      FirstWithin(MustClose(current, rest[0], sep, size), current, left, Bound(size, overlap, |sep|));
    }
  }

  lemma MergedBound(style: Style, parts: seq<string>, sep: string, size: nat, overlap: nat)
    requires sep != "" && AllWithin(parts, size)
    ensures forall p :: p in PartsPieces(style, parts, sep, size, overlap) ==> |p.Text()| <= Bound(size, overlap, |sep|)
  {
    RemainingBound(style, parts, sep, size, overlap, [], "", None);
    var pieces := PartsPieces(style, parts, sep, size, overlap);
    forall p | p in pieces ensures |p.Text()| <= Bound(size, overlap, |sep|) {
      var k :| 0 <= k < |pieces| && pieces[k] == p;
      assert Remaining(style, parts, sep, size, overlap, [], 0, None)[k] == p.Text();
    }
  }

  lemma SegmentShape(style: Style, seg: Segment, seps: seq<string>, size: nat, overlap: nat, widest: nat)
    requires size > 0 && ValidSeparators(seps) && GoodSegment(seg, seps, size)
    requires forall k :: 0 <= k < |seps| ==> |seps[k]| <= widest
    ensures Chained(SegmentPieces(style, seg, size, overlap), None, seps, overlap)
    ensures forall p :: p in SegmentPieces(style, seg, size, overlap) ==> |p.Text()| <= Bound(size, overlap, widest)
  {
    match seg
    case Whole(text) =>
    case Forced(text) =>
      ForcedChained(text, size, overlap, 0, None, seps);
      ForcedWithin(text, size, overlap, 0);
    case Merged(parts, sep) =>
      GroupsNonEmpty(parts, sep, size, overlap, [], 0);
      GroupPartsNonEmpty(parts, sep, size, overlap, [], 0);
      MergedChained(style, Groups(parts, sep, size, overlap, [], 0), sep, overlap, None, seps);
      MergedBound(style, parts, sep, size, overlap);
  }

  lemma {:induction false} PiecesShape(style: Style, segs: seq<Segment>, seps: seq<string>, size: nat, overlap: nat,
                                       widest: nat)
    requires size > 0 && ValidSeparators(seps) && GoodPlan(segs, seps, size)
    requires forall k :: 0 <= k < |seps| ==> |seps[k]| <= widest
    ensures Chained(Pieces(style, segs, size, overlap), None, seps, overlap)
    ensures forall p :: p in Pieces(style, segs, size, overlap) ==> |p.Text()| <= Bound(size, overlap, widest)
  {
    if segs != [] {
      SegmentShape(style, segs[0], seps, size, overlap, widest);
      PiecesShape(style, segs[1..], seps, size, overlap, widest);
      ChainedAppend(SegmentPieces(style, segs[0], size, overlap), Pieces(style, segs[1..], size, overlap), seps,
                    overlap);
    }
  }

  /** Every chunk is linked to the chunk before it and stays within the bound. */
  lemma SplitShape(style: Style, text: string, seps: seq<string>, depth: nat, size: nat, overlap: nat, widest: nat)
    requires size > 0 && ValidSeparators(seps)
    requires forall k :: 0 <= k < |seps| ==> |seps[k]| <= widest
    ensures Chained(SplitPieces(style, text, seps, depth, size, overlap), None, seps, overlap)
    ensures forall p :: p in SplitPieces(style, text, seps, depth, size, overlap) ==>
      |p.Text()| <= Bound(size, overlap, widest)
  {
    PlanIsGood(text, seps, depth, size);
    PiecesShape(style, Plan(text, seps, depth, size), seps, size, overlap, widest);
  }

  // ---------- merging uses the fewest chunks ----------

  /** A group fits when its joined text does, or when it is a single part. */
  ghost function FitsJoined(sep: string, size: nat): seq<string> -> bool {
    group => |group| == 1 || |Join(group, sep)| <= size
  }

  lemma {:induction false} JoinLength(group: seq<string>, sep: string, i: nat, j: nat)
    requires i <= j <= |group|
    ensures |Join(group[i..j], sep)| <= |Join(group, sep)|
    decreases |group|
  {
    if i > 0 {
      assert group[i..j] == group[1..][i - 1..j - 1];
      JoinLength(group[1..], sep, i - 1, j - 1);
    } else if j > 1 {
      assert group[i..j][1..] == group[1..][..j - 1];
      JoinLength(group[1..], sep, 0, j - 1);
    }
  }

  lemma FitsJoinedHereditary(sep: string, size: nat)
    ensures Hereditary(FitsJoined(sep, size))
  {
    var fits := FitsJoined(sep, size);
    forall g: seq<string>, i: nat, j: nat | fits(g) && i < j <= |g| ensures fits(g[i..j]) {
      JoinLength(g, sep, i, j);
    }
  }

  lemma {:induction false} GroupsGreedy(parts: seq<string>, sep: string, size: nat, open: seq<string>, len: nat)
    requires NonEmptyParts(parts)
    requires len > 0 ==> open != [] && len == |Join(open, sep)|
    ensures IsGreedy(Groups(parts, sep, size, 0, open, len), FitsJoined(sep, size))
    ensures var groups := Groups(parts, sep, size, 0, open, len);
      len > 0 ==> groups != [] && open <= groups[0]
    ensures var groups := Groups(parts, sep, size, 0, open, len);
      len == 0 && parts != [] ==> groups != [] && groups[0] != [] && groups[0][0] == parts[0]
    decreases |parts|
  {
    if parts == [] {
      if len > 0 {
        assert [open][1..] == [];
      }
    } else {
      var part, rest := parts[0], parts[1..];
      if len == 0 {
        GroupsGreedy(rest, sep, size, [part], |part|);
      } else if len + |sep| + |part| > size {
        var after := Groups(rest, sep, size, 0, [part], |part|);
        GroupsGreedy(rest, sep, size, [part], |part|);
        JoinAppend(open, part, sep);
        assert ([open] + after)[1..] == after;
        assert after[0][0] == part;
      } else {
        JoinAppend(open, part, sep);
        GroupsGreedy(rest, sep, size, open + [part], len + |sep| + |part|);
      }
    }
  }

  lemma {:induction false} MergedCount(style: Style, groups: seq<seq<string>>, sep: string, overlap: nat,
                                       prev: Option<string>)
    requires NonEmptyGroups(groups)
    ensures |MergedPieces(style, groups, sep, overlap, prev)| == |groups|
  {
    if groups != [] {
      MergedCount(style, groups[1..], sep, overlap, Some(GroupPiece(style, groups[0], sep, overlap, prev).Text()));
    }
  }

  /** With no overlap, merging emits as few chunks as any way to group the parts that respects the size. */
  lemma MergeIsOptimal(style: Style, parts: seq<string>, sep: string, size: nat, other: seq<seq<string>>)
    requires NonEmptyParts(parts)
    requires IsGrouping(other, parts, FitsJoined(sep, size))
    ensures |PartsPieces(style, parts, sep, size, 0)| <= |other|
  {
    var groups := Groups(parts, sep, size, 0, [], 0);
    GroupsNonEmpty(parts, sep, size, 0, [], 0);
    MergedCount(style, groups, sep, 0, None);
    GroupsGreedy(parts, sep, size, [], 0);
    GroupsFlatten(parts, sep, size, 0, [], 0);
    FitsJoinedHereditary(sep, size);
    assert [] + parts == parts;
    GreedyIsOptimal(groups, other, parts, FitsJoined(sep, size));
  }

  // ---------- forced cutting in closed form ----------

  /** Forced chunk `k` starts `k` steps into the text and is `size` long, unless it is the last one. */
  lemma ForcedClosedForm(text: string, size: nat, overlap: nat, k: nat)
    requires size > 0 && k < |ForcedPieces(text, size, overlap, 0)|
    ensures
      var at := k * (if overlap < size then size - overlap else size);
      && at < |text|
      && ForcedPieces(text, size, overlap, 0)[k].Text() == text[at..if at + size <= |text| then at + size else |text|]
      && (k + 1 == |ForcedPieces(text, size, overlap, 0)| <==> at + size >= |text|)
  {
    var chunks := Texts(ForcedPieces(text, size, overlap, 0));
    ForcedAreStepped(text, size, overlap, 0);
    SteppedAt(chunks, text, size, Step(size, overlap), k);
    StartIsProduct(k, Step(size, overlap));
  }

  /** At most `size` symbols of `text` from position `at` on. */
  function Window(text: string, at: nat, size: nat): string
    requires at <= |text|
  {
    text[at..if at + size <= |text| then at + size else |text|]
  }

  lemma WindowOfDrop(text: string, drop: nat, at: nat, size: nat)
    requires drop + at <= |text|
    ensures Window(text[drop..], at, size) == Window(text, drop + at, size)
  {
    SliceOfDrop(text, drop, at, if drop + at + size <= |text| then at + size else |text| - drop);
  }

  function Start(k: nat, step: nat): nat {
    if k == 0 then 0 else step + Start(k - 1, step)
  }

  lemma {:induction false} StartIsProduct(k: nat, step: nat)
    ensures Start(k, step) == k * step
  {
    if k > 0 {
      StartIsProduct(k - 1, step);
    }
  }

  /** `chunks` walks through `text` in steps, taking `size` symbols at a time. */
  predicate Stepped(chunks: seq<string>, text: string, size: nat, step: nat)
    requires 0 < step <= size
    decreases |text|
  {
    if |text| <= size then chunks == if text == "" then [] else [text]
    else chunks != [] && chunks[0] == text[..size] && Stepped(chunks[1..], text[step..], size, step)
  }

  lemma {:induction false} ForcedAreStepped(text: string, size: nat, overlap: nat, dup: nat)
    requires size > 0 && dup <= size && dup <= |text|
    ensures Stepped(Texts(ForcedPieces(text, size, overlap, dup)), text, size, Step(size, overlap))
    decreases |text|
  {
    ForcedTexts(text, size, overlap, dup);
    if |text| > size {
      var step := Step(size, overlap);
      ForcedAreStepped(text[step..], size, overlap, size - step);
      var rest := Texts(ForcedPieces(text[step..], size, overlap, size - step));
      assert ([text[..size]] + rest)[1..] == rest;
    }
  }

  lemma {:induction false} SteppedAt(chunks: seq<string>, text: string, size: nat, step: nat, k: nat)
    requires 0 < step <= size && Stepped(chunks, text, size, step) && k < |chunks|
    ensures Start(k, step) < |text| && chunks[k] == Window(text, Start(k, step), size)
    ensures k + 1 == |chunks| <==> Start(k, step) + size >= |text|
    decreases k
  {
    if |text| <= size {
      assert Window(text, 0, size) == text;
    } else if k == 0 {
      assert Window(text, 0, size) == text[..size];
      assert chunks[1..] != [];
    } else {
      SteppedAt(chunks[1..], text[step..], size, step, k - 1);
      WindowOfDrop(text, step, Start(k - 1, step), size);
    }
  }
}
