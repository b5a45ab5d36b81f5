/** Merging is greedy. */
module MergeLaws {
  // For every overlap: what each chunk of merged parts holds, and that it was closed only because the next part
  // did not fit.

  import opened Wrappers
  import opened Text
  import opened Cascade
  import opened CascadeProofs
  import opened CascadeBounds
  import opened CascadeLaws

  /**
   * The chunk of a group, behind the chunk before it: the last `overlap` symbols of that chunk, separators, and the
   * parts with separators between them. The second chunker writes a separator behind every part instead, except behind
   * a part that starts a chunk that carries nothing over.
   */
  ghost predicate IsChunkOf(style: Style, chunk: string, group: seq<string>, sep: string, overlap: nat,
                            prev: Option<string>)
    requires group != []
  {
    if prev.None? || overlap == 0 then
      if style.RagStyle? || |group| == 1 then chunk == Join(group, sep)
      else chunk == group[0] + (Join(group[1..], sep) + sep)
    else
      var carried := if |prev.value| <= overlap then prev.value else prev.value[|prev.value| - overlap..];
      if style.RagStyle? then chunk == carried + (sep + sep) + Join(group, sep)
      else chunk == carried + sep + (Join(group, sep) + sep)
  }

  lemma {:induction false} EachIsJoin(parts: seq<string>, sep: string)
    requires parts != []
    ensures EachThenSep(parts, sep) == Join(parts, sep) + sep
  {
    if |parts| == 1 {
      assert EachThenSep(parts[1..], sep) == "";
    } else {
      EachIsJoin(parts[1..], sep);
      Assoc(parts[0] + sep, Join(parts[1..], sep), sep);
    }
  }

  /**
   * Every chunk is that of its group, was closed because the first part of the next group did not fit, and fits if it
   * joins parts.
   */
  ghost predicate IsGreedyMerge(style: Style, chunks: seq<string>, groups: seq<seq<string>>, sep: string, size: nat,
                                overlap: nat, prev: Option<string>) {
    && |chunks| == |groups| && NonEmptyGroups(groups)
    && (groups != [] ==>
      && IsChunkOf(style, chunks[0], groups[0], sep, overlap, prev)
      && (|groups[0]| > 1 ==> |chunks[0]| <= size)
      && (|groups| > 1 ==> |chunks[0]| + |sep| + |groups[1][0]| > size)
      && IsGreedyMerge(style, chunks[1..], groups[1..], sep, size, overlap, Some(chunks[0])))
  }

  lemma PieceIsChunkOf(style: Style, group: seq<string>, sep: string, overlap: nat, prev: Option<string>)
    requires group != []
    ensures IsChunkOf(style, GroupPiece(style, group, sep, overlap, prev).Text(), group, sep, overlap, prev)
  {
    var body := Body(style, group, sep, false);
    assert "" + "" + body == body;
    EachIsJoin(group, sep);
    if |group| > 1 {
      EachIsJoin(group[1..], sep);
    } else {
      assert EachThenSep(group[1..], sep) == "" && group[0] + "" == group[0];
    }
  }

  lemma GreedyCons(style: Style, chunk: string, group: seq<string>, chunks: seq<string>, groups: seq<seq<string>>,
                   sep: string, size: nat, overlap: nat, prev: Option<string>)
    requires group != [] && IsChunkOf(style, chunk, group, sep, overlap, prev) && (|group| > 1 ==> |chunk| <= size)
    requires NonEmptyGroups(groups) && (groups != [] ==> |chunk| + |sep| + |groups[0][0]| > size)
    requires IsGreedyMerge(style, chunks, groups, sep, size, overlap, Some(chunk))
    ensures IsGreedyMerge(style, [chunk] + chunks, [group] + groups, sep, size, overlap, prev)
  {
    assert ([chunk] + chunks)[1..] == chunks && ([group] + groups)[1..] == groups;
  }

  /** The chunks still to come, and their groups, while `open` is the open group. */
  lemma {:induction false} RemainingIsGreedy(style: Style, rest: seq<string>, sep: string, size: nat, overlap: nat,
                                             open: seq<string>, current: string, prev: Option<string>)
    requires sep != "" && NonEmptyParts(rest) && Building(style, open, current, sep, overlap, prev)
    requires |open| > 1 && current != "" ==> |current| <= size
    ensures IsGreedyMerge(style, Remaining(style, rest, sep, size, overlap, open, |current|, prev),
                          Groups(rest, sep, size, overlap, open, |current|), sep, size, overlap, prev)
    decreases |rest|
  {
    if rest == [] {
      RemainingDone(style, sep, size, overlap, open, |current|, prev);
      LastIsGreedy(style, sep, size, overlap, open, current, prev);
    } else if current == "" {
      StartText(style, rest[0], sep, overlap, prev);
      RemainingIsGreedy(style, rest[1..], sep, size, overlap, [rest[0]], rest[0], prev);
      StartingKeeps(style, rest, sep, size, overlap, open, prev);
    } else if MustClose(current, rest[0], sep, size) {
      ClosingIsGreedy(style, rest, sep, size, overlap, open, current, prev);
    } else {
      var current' := Written(style, current, rest[0], sep, size, overlap);
      TakeText(style, open, rest[0], sep, overlap, prev);
      RemainingIsGreedy(style, rest[1..], sep, size, overlap, open + [rest[0]], current', prev);
      TakingKeeps(style, rest, sep, size, overlap, open, |current|, |current'|, prev);
    }
  }

  lemma StartingKeeps(style: Style, rest: seq<string>, sep: string, size: nat, overlap: nat, open: seq<string>,
                      prev: Option<string>)
    requires rest != [] && rest[0] != ""
    requires IsGreedyMerge(style, Remaining(style, rest[1..], sep, size, overlap, [rest[0]], |rest[0]|, prev),
                           Groups(rest[1..], sep, size, overlap, [rest[0]], |rest[0]|), sep, size, overlap, prev)
    ensures IsGreedyMerge(style, Remaining(style, rest, sep, size, overlap, open, 0, prev),
                          Groups(rest, sep, size, overlap, open, 0), sep, size, overlap, prev)
  {
    RemainingStart(style, rest, sep, size, overlap, open, prev);
  }

  lemma TakingKeeps(style: Style, rest: seq<string>, sep: string, size: nat, overlap: nat, open: seq<string>, len: nat,
                    longer: nat, prev: Option<string>)
    requires rest != [] && 0 < len && len + |sep| + |rest[0]| <= size && open != [] && longer == len + |sep| + |rest[0]|
    requires IsGreedyMerge(style, Remaining(style, rest[1..], sep, size, overlap, open + [rest[0]], longer, prev),
                           Groups(rest[1..], sep, size, overlap, open + [rest[0]], longer), sep, size, overlap, prev)
    ensures IsGreedyMerge(style, Remaining(style, rest, sep, size, overlap, open, len, prev),
                          Groups(rest, sep, size, overlap, open, len), sep, size, overlap, prev)
  {
    RemainingTake(style, rest, sep, size, overlap, open, len, prev);
  }

  lemma LastIsGreedy(style: Style, sep: string, size: nat, overlap: nat, open: seq<string>, current: string,
                     prev: Option<string>)
    requires Building(style, open, current, sep, overlap, prev) && (|open| > 1 && current != "" ==> |current| <= size)
    ensures IsGreedyMerge(style, if current != "" then [current] else [], if current != "" then [open] else [], sep,
                          size, overlap, prev)
  {
    if current != "" {
      PieceIsChunkOf(style, open, sep, overlap, prev);
      GreedyCons(style, current, open, [], [], sep, size, overlap, prev);
      assert [current] + [] == [current] && [open] + [] == [open];
    }
  }

  lemma ClosingIsGreedy(style: Style, rest: seq<string>, sep: string, size: nat, overlap: nat, open: seq<string>,
                        current: string, prev: Option<string>)
    requires rest != [] && sep != "" && NonEmptyParts(rest) && Building(style, open, current, sep, overlap, prev)
    requires MustClose(current, rest[0], sep, size) && (|open| > 1 ==> |current| <= size)
    ensures IsGreedyMerge(style, Remaining(style, rest, sep, size, overlap, open, |current|, prev),
                          Groups(rest, sep, size, overlap, open, |current|), sep, size, overlap, prev)
    decreases |rest|, 0
  {
    var current' := Written(style, current, rest[0], sep, size, overlap);
    AdvanceFull(style, rest, sep, size, overlap, open, current, prev);
    RemainingIsGreedy(style, rest[1..], sep, size, overlap, [rest[0]], current', Some(current));
    var after := Groups(rest[1..], sep, size, overlap, [rest[0]], |current'|);
    RestartLength(style, current, rest[0], sep, size, overlap);
    OpenGroupStays(rest[1..], sep, size, overlap, [rest[0]], |current'|);
    PieceIsChunkOf(style, open, sep, overlap, prev);
    GreedyCons(style, current, open,
               Remaining(style, rest[1..], sep, size, overlap, [rest[0]], |current'|, Some(current)), after,
               sep, size, overlap, prev);
  }

  lemma RestartLength(style: Style, current: string, part: string, sep: string, size: nat, overlap: nat)
    requires sep != "" && part != "" && MustClose(current, part, sep, size)
    ensures |Written(style, current, part, sep, size, overlap)| == Restart(|current|, part, sep, overlap) > 0
  {
  }

  /** Merging keeps every part in order and is greedy, whatever the overlap. */
  lemma MergeIsGreedy(style: Style, parts: seq<string>, sep: string, size: nat, overlap: nat)
    returns (groups: seq<seq<string>>)
    requires sep != "" && NonEmptyParts(parts)
    ensures Flatten(groups) == parts
    ensures IsGreedyMerge(style, Texts(PartsPieces(style, parts, sep, size, overlap)), groups, sep, size, overlap, None)
  {
    groups := Groups(parts, sep, size, overlap, [], 0);
    GroupsFlatten(parts, sep, size, overlap, [], 0);
    NothingBefore(parts);
    RemainingIsGreedy(style, parts, sep, size, overlap, [], "", None);
  }

  lemma {:induction false} HeldIsNonEmpty(parts: seq<string>)
    ensures NonEmptyParts(Held(parts))
  {
    if parts != [] {
      HeldIsNonEmpty(parts[1..]);
    }
  }

  /** The chunks of a run of small parts of a text are a greedy merge of what the parts hold. */
  lemma RunIsGreedy(style: Style, parts: seq<string>, sep: string, size: nat, overlap: nat)
    returns (groups: seq<seq<string>>)
    requires sep != "" && size > 0 && AllSmall(parts, size)
    ensures Flatten(groups) == Held(parts)
    ensures IsGreedyMerge(style, PartChunks(style, parts, sep, size, overlap), groups, sep, size, overlap, None)
  {
    SmallMerge(style, parts, sep, size, overlap);
    HeldIsNonEmpty(parts);
    groups := MergeIsGreedy(style, Held(parts), sep, size, overlap);
  }
}
