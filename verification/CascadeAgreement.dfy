/** The two splitters compared. */
module CascadeAgreement {
  // How far they agree, and where the claims made for them stop being true.

  import opened Wrappers
  import opened Text
  import opened Cascade
  import opened CascadeProofs
  import opened CascadeBounds
  import CharChunker
  import RagChunker

  // ---------- same cuts, same lengths ----------

  ghost predicate SameLengths(a: seq<string>, b: seq<string>) {
    |a| == |b| && forall k :: 0 <= k < |a| ==> |a[k]| == |b[k]|
  }

  /** Two merge loops whose open chunks are equally long stay equally long. */
  lemma {:induction false} RemainingAgree(rest: seq<string>, sep: string, size: nat, overlap: nat,
                                          openR: seq<string>, openC: seq<string>, current: string, cur: string,
                                          prevR: Option<string>, prevC: Option<string>)
    requires sep != "" && |current| == |cur|
    requires Building(RagStyle, openR, current, sep, overlap, prevR)
    requires Building(CharStyle, openC, cur, sep, overlap, prevC)
    ensures SameLengths(Remaining(RagStyle, rest, sep, size, overlap, openR, |current|, prevR),
                        Remaining(CharStyle, rest, sep, size, overlap, openC, |cur|, prevC))
    decreases |rest|
  {
    if rest == [] {
      RemainingDone(RagStyle, sep, size, overlap, openR, |current|, prevR);
      RemainingDone(CharStyle, sep, size, overlap, openC, |cur|, prevC);
    } else {
      var openR', prevR' := Advance(RagStyle, rest, sep, size, overlap, openR, current, prevR);
      var openC', prevC' := Advance(CharStyle, rest, sep, size, overlap, openC, cur, prevC);
      RemainingAgree(rest[1..], sep, size, overlap, openR', openC',
                     Written(RagStyle, current, rest[0], sep, size, overlap),
                     Written(CharStyle, cur, rest[0], sep, size, overlap), prevR', prevC');
    }
  }

  lemma SegmentsAgree(seg: Segment, seps: seq<string>, size: nat, overlap: nat)
    requires size > 0 && ValidSeparators(seps) && GoodSegment(seg, seps, size)
    ensures SameLengths(Texts(SegmentPieces(RagStyle, seg, size, overlap)),
                        Texts(SegmentPieces(CharStyle, seg, size, overlap)))
  {
    if seg.Merged? {
      RemainingAgree(seg.parts, seg.sep, size, overlap, [], [], "", "", None, None);
    }
  }

  lemma {:induction false} PlansAgree(segs: seq<Segment>, seps: seq<string>, size: nat, overlap: nat)
    requires size > 0 && ValidSeparators(seps) && GoodPlan(segs, seps, size)
    ensures SameLengths(Texts(Pieces(RagStyle, segs, size, overlap)), Texts(Pieces(CharStyle, segs, size, overlap)))
  {
    if segs != [] {
      SegmentsAgree(segs[0], seps, size, overlap);
      PlansAgree(segs[1..], seps, size, overlap);
      forall style: Style {
        TextsAppend(SegmentPieces(style, segs[0], size, overlap), Pieces(style, segs[1..], size, overlap));
      }
    }
  }

  /** The two splitters return equally many chunks, with equal lengths position by position. */
  lemma SplittersCutAlike(text: string, seps: seq<string>, depth: nat, size: nat, overlap: nat)
    requires size > 0 && ValidSeparators(seps)
    ensures SameLengths(Texts(SplitPieces(RagStyle, text, seps, depth, size, overlap)),
                        Texts(SplitPieces(CharStyle, text, seps, depth, size, overlap)))
  {
    PlanIsGood(text, seps, depth, size);
    PlansAgree(Plan(text, seps, depth, size), seps, size, overlap);
  }

  // ---------- when the contents agree too ----------

  predicate Singles(groups: seq<seq<string>>) {
    forall k :: 0 <= k < |groups| ==> |groups[k]| == 1
  }

  lemma SinglesFirst(first: seq<string>, rest: seq<seq<string>>)
    ensures Singles([first] + rest) <==> |first| == 1 && Singles(rest)
  {
    var all := [first] + rest;
    assert all[0] == first && forall k :: 0 <= k < |rest| ==> all[k + 1] == rest[k];
  }

  /** Every chunk of the groups holds one part, and none carries text over. */
  predicate NothingJoined(groups: seq<seq<string>>, overlap: nat) {
    (overlap == 0 || |groups| <= 1) && Singles(groups)
  }

  /** A single part, or without overlap parts of which no two neighbours fit together. */
  predicate PartsApart(parts: seq<string>, sep: string, size: nat, overlap: nat) {
    |parts| == 1 || (overlap == 0 && forall k :: 0 <= k < |parts| - 1 ==> |parts[k]| + |sep| + |parts[k + 1]| > size)
  }

  /** No merged segment has parts to join or text to carry over. */
  predicate NothingMerged(segs: seq<Segment>, size: nat, overlap: nat) {
    forall k :: 0 <= k < |segs| && segs[k].Merged? ==> PartsApart(segs[k].parts, segs[k].sep, size, overlap)
  }

  ghost predicate EndsInSpace(s: string) {
    s != "" && IsSpace(s[|s| - 1])
  }

  lemma {:induction false} JoinEnd(group: seq<string>, sep: string)
    requires group != [] && NonEmptyParts(group) && forall k :: 0 <= k < |group| ==> Trimmed(group[k])
    ensures Join(group, sep) != "" && !EndsInSpace(Join(group, sep))
  {
    if |group| > 1 {
      JoinEnd(group[1..], sep);
    }
  }

  lemma {:induction false} EachEnd(group: seq<string>, sep: string)
    requires group != [] && EndsInSpace(sep)
    ensures EndsInSpace(EachThenSep(group, sep))
  {
    if |group| > 1 {
      EachEnd(group[1..], sep);
    }
  }

  /** The two splitters write the same chunk exactly when it holds one part and carries nothing over. */
  lemma GroupTexts(group: seq<string>, sep: string, overlap: nat, prev: Option<string>)
    requires group != [] && NonEmptyParts(group) && EndsInSpace(sep)
    requires forall k :: 0 <= k < |group| ==> Trimmed(group[k])
    ensures GroupPiece(RagStyle, group, sep, overlap, prev).Text()
      == GroupPiece(CharStyle, group, sep, overlap, prev).Text()
      <==> |group| == 1 && (prev.None? || overlap == 0)
  {
    var p, q := GroupPiece(RagStyle, group, sep, overlap, prev), GroupPiece(CharStyle, group, sep, overlap, prev);
    JoinEnd(group, sep);
    EndOfSum(p.tail + p.glue, p.body);
    if prev.Some? && overlap > 0 {
      EachEnd(group, sep);
      EndOfSum(q.tail + q.glue, q.body);
    } else if |group| > 1 {
      EachEnd(group[1..], sep);
      EndOfSum(group[0], EachThenSep(group[1..], sep));
      EndOfSum(q.tail + q.glue, q.body);
    } else {
      assert group[0] + EachThenSep(group[1..], sep) == group[0];
    }
  }

  lemma EndOfSum(a: string, b: string)
    requires b != ""
    ensures EndsInSpace(a + b) == EndsInSpace(b)
  {
  }

  lemma SameHeadAndTail<T>(a: T, b: T, r: seq<T>, s: seq<T>)
    ensures [a] + r == [b] + s <==> a == b && r == s
  {
    assert ([a] + r)[0] == a && ([a] + r)[1..] == r;
    assert ([b] + s)[0] == b && ([b] + s)[1..] == s;
  }

  lemma {:induction false} GroupsAgree(groups: seq<seq<string>>, sep: string, overlap: nat, prev: Option<string>)
    requires NonEmptyGroups(groups) && EndsInSpace(sep)
    requires forall k :: 0 <= k < |groups| ==> NonEmptyParts(groups[k]) && forall j :: 0 <= j < |groups[k]| ==>
      Trimmed(groups[k][j])
    ensures Texts(MergedPieces(RagStyle, groups, sep, overlap, prev))
      == Texts(MergedPieces(CharStyle, groups, sep, overlap, prev))
      <==> Singles(groups) && (overlap == 0 || |groups| == 0 || (|groups| == 1 && prev.None?))
  {
    if groups != [] {
      var group, rest := groups[0], groups[1..];
      assert [group] + rest == groups;
      GroupTexts(group, sep, overlap, prev);
      forall style: Style {
        MergedCons(style, group, rest, sep, overlap, prev);
      }
      var c, d := GroupPiece(RagStyle, group, sep, overlap, prev).Text(),
          GroupPiece(CharStyle, group, sep, overlap, prev).Text();
      SameHeadAndTail(c, d, Texts(MergedPieces(RagStyle, rest, sep, overlap, Some(c))),
                      Texts(MergedPieces(CharStyle, rest, sep, overlap, Some(d))));
      GroupsAgree(rest, sep, overlap, Some(c));
      SinglesFirst(group, rest);
    }
  }

  lemma {:induction false} GroupPartsFrom(parts: seq<string>, sep: string, size: nat, overlap: nat,
                                          open: seq<string>, len: nat)
    requires forall k :: 0 <= k < |parts| ==> Trimmed(parts[k])
    requires forall k :: 0 <= k < |open| ==> Trimmed(open[k])
    ensures forall k :: 0 <= k < |Groups(parts, sep, size, overlap, open, len)| ==>
      forall j :: 0 <= j < |Groups(parts, sep, size, overlap, open, len)[k]| ==>
        Trimmed(Groups(parts, sep, size, overlap, open, len)[k][j])
    decreases |parts|
  {
    if parts != [] {
      var part, rest := parts[0], parts[1..];
      if len == 0 {
        GroupPartsFrom(rest, sep, size, overlap, if part == "" then [] else [part], |part|);
      } else if len + |sep| + |part| > size {
        GroupPartsFrom(rest, sep, size, overlap, [part], Restart(len, part, sep, overlap));
      } else {
        GroupPartsFrom(rest, sep, size, overlap, open + [part], len + |sep| + |part|);
      }
    }
  }

  lemma ApartFirst(first: string, parts: seq<string>, sep: string, size: nat)
    requires parts != []
    ensures PartsApart([first] + parts, sep, size, 0)
      <==> |first| + |sep| + |parts[0]| > size && PartsApart(parts, sep, size, 0)
  {
    var all := [first] + parts;
    assert all[0] == first && forall k :: 0 <= k < |parts| ==> all[k + 1] == parts[k];
  }

  /** Greedy grouping leaves every part alone exactly when no two neighbours fit together. */
  lemma {:induction false} SinglesIff(first: string, parts: seq<string>, sep: string, size: nat)
    requires first != "" && NonEmptyParts(parts)
    ensures Singles(Groups(parts, sep, size, 0, [first], |first|)) <==> PartsApart([first] + parts, sep, size, 0)
    decreases |parts|
  {
    if parts != [] {
      var part, rest := parts[0], parts[1..];
      ApartFirst(first, parts, sep, size);
      if |first| + |sep| + |part| > size {
        SinglesIff(part, rest, sep, size);
        SinglesFirst([first], Groups(rest, sep, size, 0, [part], |part|));
        assert [part] + rest == parts;
      } else {
        OpenGroupStays(rest, sep, size, 0, [first] + [part], |first| + |sep| + |part|);
      }
    }
  }

  lemma {:induction false} FlattenCount(groups: seq<seq<string>>)
    requires NonEmptyGroups(groups)
    ensures |Flatten(groups)| >= |groups|
    ensures Singles(groups) <==> |Flatten(groups)| == |groups|
  {
    if groups != [] {
      FlattenCount(groups[1..]);
      assert [groups[0]] + groups[1..] == groups;
      SinglesFirst(groups[0], groups[1..]);
    }
  }

  /** Whether greedy grouping joins anything can be read off the parts. */
  lemma NothingJoinedIff(parts: seq<string>, sep: string, size: nat, overlap: nat)
    requires parts != [] && NonEmptyParts(parts)
    ensures NothingJoined(Groups(parts, sep, size, overlap, [], 0), overlap) <==> PartsApart(parts, sep, size, overlap)
  {
    var groups := Groups(parts, sep, size, overlap, [], 0);
    GroupsNonEmpty(parts, sep, size, overlap, [], 0);
    GroupsFlatten(parts, sep, size, overlap, [], 0);
    assert [] + parts == parts;
    FlattenCount(groups);
    assert groups != [];
    if overlap == 0 {
      SinglesIff(parts[0], parts[1..], sep, size);
      assert [parts[0]] + parts[1..] == parts;
    }
  }

  lemma SegmentContents(seg: Segment, seps: seq<string>, size: nat, overlap: nat)
    requires size > 0 && ValidSeparators(seps) && GoodSegment(seg, seps, size)
    ensures Texts(SegmentPieces(RagStyle, seg, size, overlap)) == Texts(SegmentPieces(CharStyle, seg, size, overlap))
      <==> NothingMerged([seg], size, overlap)
  {
    if seg.Merged? {
      GroupsNonEmpty(seg.parts, seg.sep, size, overlap, [], 0);
      GroupPartsNonEmpty(seg.parts, seg.sep, size, overlap, [], 0);
      GroupPartsFrom(seg.parts, seg.sep, size, overlap, [], 0);
      GroupsAgree(Groups(seg.parts, seg.sep, size, overlap, [], 0), seg.sep, overlap, None);
      NothingJoinedIff(seg.parts, seg.sep, size, overlap);
      assert [seg][0] == seg;
    }
  }

  lemma SameParts<T>(a: seq<T>, b: seq<T>, r: seq<T>, s: seq<T>)
    requires |a| == |b|
    ensures a + r == b + s <==> a == b && r == s
  {
    assert (a + r)[..|a|] == a && (a + r)[|a|..] == r;
    assert (b + s)[..|b|] == b && (b + s)[|b|..] == s;
  }

  lemma {:induction false} PlanContents(segs: seq<Segment>, seps: seq<string>, size: nat, overlap: nat)
    requires size > 0 && ValidSeparators(seps) && GoodPlan(segs, seps, size)
    ensures Texts(Pieces(RagStyle, segs, size, overlap)) == Texts(Pieces(CharStyle, segs, size, overlap))
      <==> NothingMerged(segs, size, overlap)
  {
    if segs != [] {
      var first, rest := segs[0], segs[1..];
      SegmentsAgree(first, seps, size, overlap);
      SegmentContents(first, seps, size, overlap);
      PlanContents(rest, seps, size, overlap);
      forall style: Style {
        TextsAppend(SegmentPieces(style, first, size, overlap), Pieces(style, rest, size, overlap));
      }
      SameParts(Texts(SegmentPieces(RagStyle, first, size, overlap)),
                Texts(SegmentPieces(CharStyle, first, size, overlap)),
                Texts(Pieces(RagStyle, rest, size, overlap)), Texts(Pieces(CharStyle, rest, size, overlap)));
      NothingMergedCons(first, rest, size, overlap);
      assert [first] + rest == segs;
    }
  }

  lemma NothingMergedCons(first: Segment, rest: seq<Segment>, size: nat, overlap: nat)
    ensures NothingMerged([first] + rest, size, overlap)
      <==> NothingMerged([first], size, overlap) && NothingMerged(rest, size, overlap)
  {
    var all := [first] + rest;
    assert all[0] == first == [first][0];
    assert forall k :: 0 <= k < |rest| ==> rest[k] == all[k + 1];
    assert forall k :: 0 < k < |all| ==> all[k] == rest[k - 1];
  }

  /**
   * The two splitters return the same chunks exactly when every merged segment of the plan is a single part or,
   * without overlap, consists of parts of which no two neighbours fit together.
   */
  lemma SplittersMatchIff(text: string, seps: seq<string>, depth: nat, size: nat, overlap: nat)
    requires size > 0 && ValidSeparators(seps)
    ensures Texts(SplitPieces(RagStyle, text, seps, depth, size, overlap))
      == Texts(SplitPieces(CharStyle, text, seps, depth, size, overlap))
      <==> NothingMerged(Plan(text, seps, depth, size), size, overlap)
  {
    PlanIsGood(text, seps, depth, size);
    PlanContents(Plan(text, seps, depth, size), seps, size, overlap);
  }

  // ---------- runs that just fail to fit together ----------

  function Copies(part: string, n: nat): (parts: seq<string>)
    ensures |parts| == n && forall k :: 0 <= k < n ==> parts[k] == part
  {
    seq(n, _ => part)
  }

  /** Runs of one letter, each as long as a chunk may be, with blank lines between them. */
  function Runs(n: nat, size: nat): string {
    Join(Copies(Repeat('a', size), n), "\n\n")
  }

  /** A plan that merges all parts when each is trimmed and small enough. */
  lemma {:induction false} PlanMerges(parts: seq<string>, good: seq<string>, seps: seq<string>, depth: nat, size: nat)
    requires UsableSeparators(seps) && depth < |seps| && parts + good != []
    requires forall k :: 0 <= k < |parts| ==> parts[k] != "" && Trimmed(parts[k]) && |parts[k]| <= size
    ensures PlanParts(parts, good, seps, depth, size) == [Merged(good + parts, seps[depth])]
    decreases |parts|
  {
    if parts == [] {
      assert good + parts == good;
    } else {
      TrimmedIsFixed(parts[0]);
      PlanMerges(parts[1..], good + [parts[0]], seps, depth, size);
      assert good + [parts[0]] + parts[1..] == good + parts;
    }
  }

  lemma RunsPlan(n: nat, size: nat)
    requires n >= 2 && size > 0
    ensures UsableSeparators(SEPARATORS)
    ensures Plan(Runs(n, size), SEPARATORS, 0, size) == [Merged(Copies(Repeat('a', size), n), "\n\n")]
  {
    SeparatorsAreValid();
    var parts := Copies(Repeat('a', size), n);
    assert parts[1..] != [];
    PlanJoined(parts, SEPARATORS, 0, size);
  }

  /** The open chunk is the next to be emitted when it has no room for another run. */
  lemma OpenIsEmitted(style: Style, rest: seq<string>, sep: string, size: nat, overlap: nat, open: seq<string>,
                      current: string, prev: Option<string>)
    requires sep != "" && Building(style, open, current, sep, overlap, prev) && |current| >= size > 0
    ensures current in Remaining(style, rest, sep, size, overlap, open, |current|, prev)
  {
    if rest == [] {
      RemainingDone(style, sep, size, overlap, open, |current|, prev);
    } else {
      var open', prev' := Advance(style, rest, sep, size, overlap, open, current, prev);
      assert MustClose(current, rest[0], sep, size);
    }
  }

  predicate ReachesBound(texts: seq<string>, size: nat, overlap: nat) {
    exists j :: 0 <= j < |texts| && |texts[j]| == Bound(size, overlap, 2)
  }

  lemma ReachesBehind(first: string, left: seq<string>, size: nat, overlap: nat)
    requires ReachesBound(left, size, overlap)
    ensures ReachesBound([first] + left, size, overlap)
  {
    var j :| 0 <= j < |left| && |left[j]| == Bound(size, overlap, 2);
    assert ([first] + left)[j + 1] == left[j];
  }

  /** What a run makes of a chunk that is full: the carried text, two blank lines and the run. */
  lemma RunWritten(style: Style, current: string, size: nat, overlap: nat)
    requires |current| >= size > 0 && overlap > 0
    ensures MustClose(current, Repeat('a', size), "\n\n", size)
    ensures |Written(style, current, Repeat('a', size), "\n\n", size, overlap)|
      == (if |current| <= overlap then |current| else overlap) + 4 + size
  {
  }

  /** Chunks of runs grow until they carry over as much as the overlap allows. */
  lemma {:induction false} RunsGrow(style: Style, k: nat, size: nat, overlap: nat, open: seq<string>,
                                    current: string, prev: Option<string>)
    requires overlap > 0 && size > 0 && Building(style, open, current, "\n\n", overlap, prev)
    requires |current| >= size && k > 0 && k > overlap - |current|
    ensures ReachesBound(Remaining(style, Copies(Repeat('a', size), k), "\n\n", size, overlap, open, |current|,
                                   prev), size, overlap)
    decreases k
  {
    var sep, run, rest := "\n\n", Repeat('a', size), Copies(Repeat('a', size), k);
    assert rest[1..] == Copies(run, k - 1);
    var open', prev' := Advance(style, rest, sep, size, overlap, open, current, prev);
    var next := Written(style, current, run, sep, size, overlap);
    RunWritten(style, current, size, overlap);
    if |current| >= overlap {
      OpenIsEmitted(style, rest[1..], sep, size, overlap, open', next, prev');
    } else {
      RunsGrow(style, k - 1, size, overlap, open', next, prev');
    }
    ReachesBehind(current, Remaining(style, rest[1..], sep, size, overlap, open', |next|, prev'), size, overlap);
  }

  lemma RunsReachBound(style: Style, size: nat, overlap: nat)
    requires overlap > 0 && size > 0
    ensures UsableSeparators(SEPARATORS)
    ensures ReachesBound(Texts(SplitPieces(style, Runs(overlap + 2, size), SEPARATORS, 0, size, overlap)), size,
                         overlap)
  {
    var sep, run, parts := "\n\n", Repeat('a', size), Copies(Repeat('a', size), overlap + 2);
    RunsPlan(overlap + 2, size);
    var open, prev := Advance(style, parts, sep, size, overlap, [], "", None);
    assert parts[1..] == Copies(run, overlap + 1);
    RunsGrow(style, overlap + 1, size, overlap, open, run, prev);
    FlushPieces(style, parts, sep, size, overlap);
    var left := Remaining(style, parts[1..], sep, size, overlap, open, |run|, prev);
    assert [] + left == left;
  }

  /** A chunk is never larger than the size for any text exactly when the overlap is zero. */
  lemma SizeHoldsIff(style: Style, size: nat, overlap: nat)
    requires size > 0
    ensures UsableSeparators(SEPARATORS)
    ensures (forall text, p :: p in SplitPieces(style, text, SEPARATORS, 0, size, overlap) ==> |p.Text()| <= size)
      <==> overlap == 0
  {
    SeparatorsAreValid();
    if overlap == 0 {
      forall text, p | p in SplitPieces(style, text, SEPARATORS, 0, size, overlap) ensures |p.Text()| <= size {
        SplitShape(style, text, SEPARATORS, 0, size, overlap, 2);
      }
    } else {
      BoundIsTight(style, size, overlap);
    }
  }

  /** The bound on a chunk is attained for every size and every positive overlap. */
  lemma BoundIsTight(style: Style, size: nat, overlap: nat)
    requires size > 0 && overlap > 0
    ensures UsableSeparators(SEPARATORS)
    ensures
      var pieces := SplitPieces(style, Runs(overlap + 2, size), SEPARATORS, 0, size, overlap);
      exists p :: p in pieces && |p.Text()| == Bound(size, overlap, 2)
  {
    RunsReachBound(style, size, overlap);
    var pieces := SplitPieces(style, Runs(overlap + 2, size), SEPARATORS, 0, size, overlap);
    var j :| 0 <= j < |Texts(pieces)| && |Texts(pieces)[j]| == Bound(size, overlap, 2);
    assert pieces[j] in pieces;
  }

  /** What the two merge loops have written after each of the first words. */
  function FirstTwo(style: Style): string {
    if style.RagStyle? then "a b" else "ab "
  }

  function FirstThree(style: Style): string {
    if style.RagStyle? then "a b c" else "ab c "
  }

  lemma WordsWritten(style: Style)
    ensures Written(style, "", "a", " ", 5, 0) == "a"
    ensures Written(style, "a", "b", " ", 5, 0) == FirstTwo(style) && !MustClose("a", "b", " ", 5)
    ensures Written(style, FirstTwo(style), "c", " ", 5, 0) == FirstThree(style) &&
      !MustClose(FirstTwo(style), "c", " ", 5)
    ensures Written(style, FirstThree(style), "dddd", " ", 5, 0) == "dddd" &&
      MustClose(FirstThree(style), "dddd", " ", 5)
  {
  }

  lemma LastTwoWords(style: Style, open: seq<string>, prev: Option<string>)
    requires Building(style, open, FirstTwo(style), " ", 0, prev)
    ensures Remaining(style, ["c", "dddd"], " ", 5, 0, open, |FirstTwo(style)|, prev) == [FirstThree(style), "dddd"]
  {
    WordsWritten(style);
    assert ["c", "dddd"][1..] == ["dddd"] && ["dddd"][1..] == [];
    var o3, p3 := Advance(style, ["c", "dddd"], " ", 5, 0, open, FirstTwo(style), prev);
    var o4, p4 := Advance(style, ["dddd"], " ", 5, 0, o3, FirstThree(style), p3);
    RemainingDone(style, " ", 5, 0, o4, 4, p4);
    assert [] + [FirstThree(style), "dddd"] == [FirstThree(style)] + ["dddd"];
  }

  lemma FourWords(style: Style)
    ensures Texts(PartsPieces(style, ["a", "b", "c", "dddd"], " ", 5, 0)) == [FirstThree(style), "dddd"]
  {
    WordsWritten(style);
    assert ["a", "b", "c", "dddd"][1..] == ["b", "c", "dddd"] && ["b", "c", "dddd"][1..] == ["c", "dddd"];
    var o1, p1 := Advance(style, ["a", "b", "c", "dddd"], " ", 5, 0, [], "", None);
    var o2, p2 := Advance(style, ["b", "c", "dddd"], " ", 5, 0, o1, "a", p1);
    LastTwoWords(style, o2, p2);
    assert [] + [FirstThree(style), "dddd"] == [FirstThree(style), "dddd"];
  }

  const WORDS: string := "a b c dddd"

  lemma WordsJoin()
    ensures Join(["a", "b", "c", "dddd"], " ") == WORDS
  {
    assert ["a", "b", "c", "dddd"][1..] == ["b", "c", "dddd"] && ["b", "c", "dddd"][1..] == ["c", "dddd"];
    assert ["c", "dddd"][1..] == ["dddd"];
    assert Join(["c", "dddd"], " ") == "c" + " " + "dddd" == "c dddd";
    assert Join(["b", "c", "dddd"], " ") == "b" + " " + "c dddd" == "b c dddd";
    assert "a" + " " + "b c dddd" == WORDS;
  }

  /** A separator that does not occur is skipped. */
  lemma SkipSeparator(text: string, depth: nat, size: nat)
    requires UsableSeparators(SEPARATORS) && depth < |SEPARATORS| && |text| > size && SEPARATORS[depth][0] !in text
    ensures Plan(text, SEPARATORS, depth, size) == Plan(text, SEPARATORS, depth + 1, size)
  {
    NotIn(text, SEPARATORS[depth]);
  }

  lemma {:induction false} SkipTo(depth: nat)
    requires UsableSeparators(SEPARATORS) && depth <= 7
    ensures Plan(WORDS, SEPARATORS, depth, 5) == Plan(WORDS, SEPARATORS, 7, 5)
    decreases 7 - depth
  {
    if depth < 7 {
      SkipSeparator(WORDS, depth, 5);
      SkipTo(depth + 1);
    }
  }

  lemma WordsFit(k: nat)
    requires k < 4
    ensures ["a", "b", "c", "dddd"][k] != "" && Trimmed(["a", "b", "c", "dddd"][k]) && |["a", "b", "c", "dddd"][k]| <= 5
    ensures ' ' !in ["a", "b", "c", "dddd"][k]
  {
    assert k == 0 || k == 1 || k == 2 || k == 3;
  }

  lemma WordsPlan()
    ensures UsableSeparators(SEPARATORS)
    ensures Plan(WORDS, SEPARATORS, 0, 5) == [Merged(["a", "b", "c", "dddd"], " ")]
  {
    SeparatorsAreValid();
    var parts := ["a", "b", "c", "dddd"];
    SkipTo(0);
    WordsJoin();
    forall k | 0 <= k < |parts| ensures parts[k] != "" && Trimmed(parts[k]) && |parts[k]| <= 5 && ' ' !in parts[k] {
      WordsFit(k);
    }
    PlanJoined(parts, SEPARATORS, 7, 5);
  }

  /** Parts that were joined by the current separator and are small enough are merged again. */
  lemma PlanJoined(parts: seq<string>, seps: seq<string>, depth: nat, size: nat)
    requires UsableSeparators(seps) && depth < |seps| && |parts| > 1 && |Join(parts, seps[depth])| > size
    requires forall k :: 0 <= k < |parts| ==>
      parts[k] != "" && Trimmed(parts[k]) && |parts[k]| <= size && seps[depth][0] !in parts[k]
    ensures Plan(Join(parts, seps[depth]), seps, depth, size) == [Merged(parts, seps[depth])]
  {
    SplitJoin(parts, seps[depth]);
    SplitFirst(parts[0], seps[depth], Join(parts[1..], seps[depth]));
    FirstAt(parts[0], seps[depth], Join(parts[1..], seps[depth]));
    PlanMerges(parts, [], seps, depth, size);
    assert [] + parts == parts;
  }

  lemma WordsTexts(style: Style)
    ensures UsableSeparators(SEPARATORS)
    ensures Texts(SplitPieces(style, WORDS, SEPARATORS, 0, 5, 0))
      == Texts(PartsPieces(style, ["a", "b", "c", "dddd"], " ", 5, 0))
  {
    WordsPlan();
    FlushPieces(style, ["a", "b", "c", "dddd"], " ", 5, 0);
  }

  /** The comment that both chunkers behave alike fails on four short words. */
  lemma ContentsDiffer()
    ensures Texts(RagChunker.TextPieces(WORDS, RagChunker.ChunkingConfig(true, 5, 0))) == ["a b c", "dddd"]
    ensures Texts(CharChunker.CharPieces(WORDS, 5, 0)) == ["ab c ", "dddd"]
  {
    WordsTexts(RagStyle);
    WordsTexts(CharStyle);
    FourWords(RagStyle);
    FourWords(CharStyle);
  }
}
