/** Nothing that must be kept is lost. */
module CascadeProofs {
  import opened Wrappers
  import opened Text
  import opened Cascade

  // ---------- the plan ----------

  predicate GoodParts(parts: seq<string>, size: nat) {
    forall k :: 0 <= k < |parts| ==> parts[k] != "" && Trimmed(parts[k]) && |parts[k]| <= size
  }

  predicate GoodSegment(seg: Segment, seps: seq<string>, size: nat) {
    match seg
    case Whole(text) => |text| <= size
    case Forced(text) => |text| > size
    case Merged(parts, sep) => parts != [] && GoodParts(parts, size) && sep in seps
  }

  predicate GoodPlan(segs: seq<Segment>, seps: seq<string>, size: nat) {
    forall k :: 0 <= k < |segs| ==> GoodSegment(segs[k], seps, size)
  }

  /** The text a segment was made of. */
  function Source(seg: Segment): string {
    match seg
    case Whole(text) => text
    case Forced(text) => text
    case Merged(parts, _) => Concat(parts)
  }

  /** What a plan has to keep. */
  function KeptBy(segs: seq<Segment>): string {
    if segs == [] then "" else Kept(Source(segs[0])) + KeptBy(segs[1..])
  }

  lemma {:induction false} KeptByAppend(a: seq<Segment>, b: seq<Segment>)
    ensures KeptBy(a + b) == KeptBy(a) + KeptBy(b)
  {
    if a == [] {
      assert a + b == b;
    } else {
      KeptByAppend(a[1..], b);
      assert (a + b)[0] == a[0] && (a + b)[1..] == a[1..] + b;
      Assoc(Kept(Source(a[0])), KeptBy(a[1..]), KeptBy(b));
    }
  }

  lemma KeptByOne(seg: Segment)
    ensures KeptBy([seg]) == Kept(Source(seg))
  {
    assert [seg][1..] == [];
  }

  lemma {:induction false} PlanKeeps(text: string, seps: seq<string>, depth: nat, size: nat)
    requires ValidSeparators(seps)
    ensures KeptBy(Plan(text, seps, depth, size)) == Kept(text)
    decreases if depth < |seps| then |seps| - depth else 0, 1, 0
  {
    KeptByOne(Whole(text));
    KeptByOne(Forced(text));
    if |text| > size && depth < |seps| {
      if !Contains(text, seps[depth]) {
        PlanKeeps(text, seps, depth + 1, size);
      } else {
        var parts := Split(text, seps[depth]);
        PlanPartsKeeps(parts, [], seps, depth, size);
        JoinSplit(text, seps[depth]);
        KeptJoin(parts, seps[depth]);
        assert "" + Kept(Concat(parts)) == Kept(Concat(parts));
      }
    }
  }

  lemma {:induction false} PlanPartsKeeps(parts: seq<string>, good: seq<string>, seps: seq<string>, depth: nat,
                                          size: nat)
    requires ValidSeparators(seps) && depth < |seps|
    ensures KeptBy(PlanParts(parts, good, seps, depth, size)) == Kept(Concat(good)) + Kept(Concat(parts))
    decreases |seps| - depth, 0, |parts|
  {
    FlushKeeps(good, seps[depth]);
    if parts != [] {
      var part, rest := TrimSpace(parts[0]), parts[1..];
      TrimSpaceKeeps(parts[0]);
      KeptAppend(parts[0], Concat(rest));
      if part == "" {
        PlanPartsKeeps(rest, good, seps, depth, size);
        assert "" + Kept(Concat(rest)) == Kept(Concat(rest));
      } else if |part| > size {
        PlanKeeps(part, seps, depth + 1, size);
        PlanPartsKeeps(rest, [], seps, depth, size);
        var a, b, c := Flush(good, seps[depth]), Plan(part, seps, depth + 1, size),
            PlanParts(rest, [], seps, depth, size);
        KeptByAppend(a + b, c);
        KeptByAppend(a, b);
        Assoc(KeptBy(a), KeptBy(b), KeptBy(c));
        assert KeptBy(c) == Kept(Concat(rest)) by { assert "" + Kept(Concat(rest)) == Kept(Concat(rest)); }
      } else {
        PlanPartsKeeps(rest, good + [part], seps, depth, size);
        ConcatAppend(good, [part]);
        assert Concat([part]) == part by { assert [part][1..] == []; assert part + "" == part; }
        KeptAppend(Concat(good), part);
        Assoc(Kept(Concat(good)), Kept(part), Kept(Concat(rest)));
      }
    }
  }

  /** Every segment of a plan is what its constructor says: small, oversized, or made of small trimmed parts. */
  lemma {:induction false} PlanIsGood(text: string, seps: seq<string>, depth: nat, size: nat)
    requires ValidSeparators(seps)
    ensures GoodPlan(Plan(text, seps, depth, size), seps, size)
    decreases if depth < |seps| then |seps| - depth else 0, 1, 0
  {
    if |text| > size && depth < |seps| {
      if !Contains(text, seps[depth]) {
        PlanIsGood(text, seps, depth + 1, size);
      } else {
        PlanPartsAreGood(Split(text, seps[depth]), [], seps, depth, size);
      }
    }
  }

  lemma {:induction false} PlanPartsAreGood(parts: seq<string>, good: seq<string>, seps: seq<string>, depth: nat,
                                            size: nat)
    requires ValidSeparators(seps) && depth < |seps| && GoodParts(good, size)
    ensures GoodPlan(PlanParts(parts, good, seps, depth, size), seps, size)
    decreases |seps| - depth, 0, |parts|
  {
    if parts != [] {
      var part, rest := TrimSpace(parts[0]), parts[1..];
      TrimSpaceKeeps(parts[0]);
      if part == "" {
        PlanPartsAreGood(rest, good, seps, depth, size);
      } else if |part| > size {
        PlanIsGood(part, seps, depth + 1, size);
        PlanPartsAreGood(rest, [], seps, depth, size);
      } else {
        PlanPartsAreGood(rest, good + [part], seps, depth, size);
      }
    }
  }

  lemma FlushKeeps(good: seq<string>, sep: string)
    ensures KeptBy(Flush(good, sep)) == Kept(Concat(good))
  {
    if good != [] {
      KeptByOne(Merged(good, sep));
    }
  }

  // ---------- conservation ----------

  lemma {:induction false} KeptEach(group: seq<string>, sep: string)
    requires Kept(sep) == ""
    ensures Kept(EachThenSep(group, sep)) == Kept(Concat(group))
  {
    if group != [] {
      KeptEach(group[1..], sep);
      KeptAppend(group[0] + sep, EachThenSep(group[1..], sep));
      KeptAppend(group[0], sep);
      KeptAppend(group[0], Concat(group[1..]));
    }
  }

  lemma KeptBody(style: Style, group: seq<string>, sep: string, led: bool)
    requires group != [] && Kept(sep) == ""
    ensures Kept(Body(style, group, sep, led)) == Kept(Concat(group))
  {
    KeptJoin(group, sep);
    KeptEach(group, sep);
    KeptEach(group[1..], sep);
    KeptAppend(group[0], EachThenSep(group[1..], sep));
    KeptAppend(group[0], Concat(group[1..]));
  }

  lemma {:induction false} MergedKeeps(style: Style, groups: seq<seq<string>>, sep: string, overlap: nat,
                                       prev: Option<string>)
    requires NonEmptyGroups(groups) && Kept(sep) == ""
    ensures Kept(FreshText(MergedPieces(style, groups, sep, overlap, prev))) == Kept(Concat(Flatten(groups)))
  {
    if groups != [] {
      var piece := GroupPiece(style, groups[0], sep, overlap, prev);
      var rest := MergedPieces(style, groups[1..], sep, overlap, Some(piece.Text()));
      MergedKeeps(style, groups[1..], sep, overlap, Some(piece.Text()));
      assert ([piece] + rest)[1..] == rest;
      KeptAppend(piece.body, FreshText(rest));
      KeptBody(style, groups[0], sep, prev.Some? && overlap > 0);
      ConcatAppend(groups[0], Flatten(groups[1..]));
      KeptAppend(Concat(groups[0]), Concat(Flatten(groups[1..])));
    }
  }

  /** Grouping keeps every part, in order. */
  lemma {:induction false} GroupsFlatten(parts: seq<string>, sep: string, size: nat, overlap: nat, open: seq<string>,
                                         len: nat)
    requires forall k :: 0 <= k < |parts| ==> parts[k] != ""
    ensures Flatten(Groups(parts, sep, size, overlap, open, len)) == (if len > 0 then open else []) + parts
    decreases |parts|
  {
    if parts == [] {
      if len > 0 {
        assert Flatten([open]) == open + Flatten([open][1..]);
      }
    } else {
      var part, rest := parts[0], parts[1..];
      assert parts == [part] + rest;
      if len == 0 {
        GroupsFlatten(rest, sep, size, overlap, [part], |part|);
      } else if len + |sep| + |part| > size {
        var restart := Restart(len, part, sep, overlap);
        var after := Groups(rest, sep, size, overlap, [part], restart);
        GroupsFlatten(rest, sep, size, overlap, [part], restart);
        assert ([open] + after)[1..] == after;
      } else {
        GroupsFlatten(rest, sep, size, overlap, open + [part], len + |sep| + |part|);
        Assoc(open, [part], rest);
      }
    }
  }

  lemma {:induction false} ForcedFresh(text: string, size: nat, overlap: nat, dup: nat)
    requires size > 0 && dup <= size && dup <= |text|
    ensures FreshText(ForcedPieces(text, size, overlap, dup)) == text[dup..]
    decreases |text|
  {
    if |text| > size {
      var step := Step(size, overlap);
      var rest := ForcedPieces(text[step..], size, overlap, size - step);
      ForcedFresh(text[step..], size, overlap, size - step);
      assert text[step..][size - step..] == text[size..];
      assert ([Piece(text[..dup], "", text[dup..size])] + rest)[1..] == rest;
      assert text[dup..size] + text[size..] == text[dup..];
    } else if text != "" {
      var p := Piece(text[..dup], "", text[dup..]);
      assert FreshText([p]) == p.body + FreshText([p][1..]) == p.body;
    }
  }

  lemma SegmentKeeps(style: Style, seg: Segment, seps: seq<string>, size: nat, overlap: nat)
    requires size > 0 && ValidSeparators(seps) && GoodSegment(seg, seps, size)
    ensures Kept(FreshText(SegmentPieces(style, seg, size, overlap))) == KeptBy([seg])
  {
    KeptByOne(seg);
    match seg
    case Whole(text) =>
      var p := Piece("", "", text);
      assert FreshText([p]) == p.body + FreshText([p][1..]) == text;
    case Forced(text) =>
      ForcedFresh(text, size, overlap, 0);
    case Merged(parts, sep) =>
      GroupsNonEmpty(parts, sep, size, overlap, [], 0);
      MergedKeeps(style, Groups(parts, sep, size, overlap, [], 0), sep, overlap, None);
      GroupsFlatten(parts, sep, size, overlap, [], 0);
      assert [] + parts == parts;
  }

  lemma {:induction false} PiecesKeep(style: Style, segs: seq<Segment>, seps: seq<string>, size: nat, overlap: nat)
    requires size > 0 && ValidSeparators(seps) && GoodPlan(segs, seps, size)
    ensures Kept(FreshText(Pieces(style, segs, size, overlap))) == KeptBy(segs)
  {
    if segs != [] {
      var first, rest := SegmentPieces(style, segs[0], size, overlap), Pieces(style, segs[1..], size, overlap);
      SegmentKeeps(style, segs[0], seps, size, overlap);
      PiecesKeep(style, segs[1..], seps, size, overlap);
      FreshAppend(first, rest);
      KeptAppend(FreshText(first), FreshText(rest));
      KeptByAppend([segs[0]], segs[1..]);
      assert [segs[0]] + segs[1..] == segs;
    }
  }

  /** Nothing is lost and nothing is duplicated outside the carried-over prefixes. */
  lemma SplitConserves(style: Style, text: string, seps: seq<string>, depth: nat, size: nat, overlap: nat)
    requires size > 0 && ValidSeparators(seps)
    ensures Kept(FreshText(SplitPieces(style, text, seps, depth, size, overlap))) == Kept(text)
  {
    PlanKeeps(text, seps, depth, size);
    PlanIsGood(text, seps, depth, size);
    PiecesKeep(style, Plan(text, seps, depth, size), seps, size, overlap);
  }
}
