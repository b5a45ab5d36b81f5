/**
 * What the two recursive separator splitters compute. A text is first planned into segments, which
 * depends only on the separators and the size; each segment is then cut into pieces. The two
 * splitters differ only in where a piece's separators are written.
 */
module Cascade {
  import opened Wrappers
  import opened Text

  datatype Style = RagStyle | CharStyle

  /** Part of a text: kept whole, cut by force, or merged from the parts between separators. */
  datatype Segment =
    | Whole(text: string)
    | Forced(text: string)
    | Merged(parts: seq<string>, sep: string)

  /** One chunk: text carried over from the chunk before it, separators, and text not emitted before. */
  datatype Piece = Piece(tail: string, glue: string, body: string) {
    function Text(): string {
      tail + glue + body
    }
  }

  const SEPARATORS: seq<string> := ["\n\n", "\n", ". ", "? ", "! ", "; ", ", ", " "]

  /** A separator is not empty, holds nothing that must be kept, and ends in white space. */
  predicate ValidSeparator(sep: string) {
    sep != "" && Kept(sep) == "" && IsSpace(sep[|sep| - 1])
  }

  predicate UsableSeparators(seps: seq<string>) {
    forall k :: 0 <= k < |seps| ==> seps[k] != ""
  }

  predicate ValidSeparators(seps: seq<string>) {
    forall k :: 0 <= k < |seps| ==> ValidSeparator(seps[k])
  }

  // ---------- planning ----------

  function Plan(text: string, seps: seq<string>, depth: nat, size: nat): seq<Segment>
    requires UsableSeparators(seps)
    decreases if depth < |seps| then |seps| - depth else 0, 1, 0
  {
    if |text| <= size then [Whole(text)]
    else if depth >= |seps| then [Forced(text)]
    else if !Contains(text, seps[depth]) then Plan(text, seps, depth + 1, size)
    else PlanParts(Split(text, seps[depth]), [], seps, depth, size)
  }

  function PlanParts(parts: seq<string>, good: seq<string>, seps: seq<string>, depth: nat, size: nat): seq<Segment>
    requires UsableSeparators(seps) && depth < |seps|
    decreases |seps| - depth, 0, |parts|
  {
    if parts == [] then Flush(good, seps[depth])
    else
      var part := TrimSpace(parts[0]);
      if part == "" then PlanParts(parts[1..], good, seps, depth, size)
      else if |part| > size then
        Flush(good, seps[depth]) + Plan(part, seps, depth + 1, size) + PlanParts(parts[1..], [], seps, depth, size)
      else PlanParts(parts[1..], good + [part], seps, depth, size)
  }

  function Flush(good: seq<string>, sep: string): seq<Segment> {
    if good == [] then [] else [Merged(good, sep)]
  }

  // ---------- cutting a segment into pieces ----------

  /** The length of a new chunk that carries over from a chunk of length `len` and takes `part`. */
  function Restart(len: nat, part: string, sep: string, overlap: nat): nat {
    (if overlap == 0 then 0 else (if len <= overlap then len else overlap) + 2 * |sep|) + |part|
  }

  /** Greedy grouping of the parts of a merged segment; `open` is the open group and `len` its chunk's length. */
  function Groups(parts: seq<string>, sep: string, size: nat, overlap: nat, open: seq<string>,
                  len: nat): seq<seq<string>>
  {
    if parts == [] then (if len > 0 then [open] else [])
    else
      var part, rest := parts[0], parts[1..];
      if len == 0 then Groups(rest, sep, size, overlap, if part == "" then [] else [part], |part|)
      else if len + |sep| + |part| > size then
        [open] + Groups(rest, sep, size, overlap, [part], Restart(len, part, sep, overlap))
      else Groups(rest, sep, size, overlap, open + [part], len + |sep| + |part|)
  }

  function EachThenSep(parts: seq<string>, sep: string): string {
    if parts == [] then "" else parts[0] + sep + EachThenSep(parts[1..], sep)
  }

  /** The fresh text of a chunk; `led` says that the chunk starts with carried-over text. */
  function Body(style: Style, group: seq<string>, sep: string, led: bool): string
    requires group != []
  {
    match style
    case RagStyle => Join(group, sep)
    case CharStyle => if led then EachThenSep(group, sep) else group[0] + EachThenSep(group[1..], sep)
  }

  function GroupPiece(style: Style, group: seq<string>, sep: string, overlap: nat, prev: Option<string>): Piece
    requires group != []
  {
    if prev.None? || overlap == 0 then Piece("", "", Body(style, group, sep, false))
    else Piece(Tail(prev.value, overlap), if style.RagStyle? then sep + sep else sep, Body(style, group, sep, true))
  }

  predicate NonEmptyGroups(groups: seq<seq<string>>) {
    forall k :: 0 <= k < |groups| ==> groups[k] != []
  }

  function MergedPieces(style: Style, groups: seq<seq<string>>, sep: string, overlap: nat,
                        prev: Option<string>): seq<Piece>
    requires NonEmptyGroups(groups)
  {
    if groups == [] then []
    else
      var piece := GroupPiece(style, groups[0], sep, overlap, prev);
      [piece] + MergedPieces(style, groups[1..], sep, overlap, Some(piece.Text()))
  }

  function Step(size: nat, overlap: nat): nat {
    if overlap < size then size - overlap else size
  }

  /** Forced cuts; the first `dup` symbols of `text` were already emitted. */
  function ForcedPieces(text: string, size: nat, overlap: nat, dup: nat): seq<Piece>
    requires size > 0 && dup <= size && dup <= |text|
  {
    if text == "" then []
    else if |text| <= size then [Piece(text[..dup], "", text[dup..])]
    else
      var step := Step(size, overlap);
      [Piece(text[..dup], "", text[dup..size])] + ForcedPieces(text[step..], size, overlap, size - step)
  }

  lemma {:induction false} GroupsNonEmpty(parts: seq<string>, sep: string, size: nat, overlap: nat,
                                          open: seq<string>, len: nat)
    requires len > 0 ==> open != []
    ensures NonEmptyGroups(Groups(parts, sep, size, overlap, open, len))
    decreases |parts|
  {
    if parts != [] {
      var part, rest := parts[0], parts[1..];
      if len == 0 {
        GroupsNonEmpty(rest, sep, size, overlap, if part == "" then [] else [part], |part|);
      } else if len + |sep| + |part| > size {
        GroupsNonEmpty(rest, sep, size, overlap, [part], Restart(len, part, sep, overlap));
      } else {
        GroupsNonEmpty(rest, sep, size, overlap, open + [part], len + |sep| + |part|);
      }
    }
  }

  /** All pieces of the parts of one merged segment. */
  function PartsPieces(style: Style, parts: seq<string>, sep: string, size: nat, overlap: nat): seq<Piece> {
    GroupsNonEmpty(parts, sep, size, overlap, [], 0);
    MergedPieces(style, Groups(parts, sep, size, overlap, [], 0), sep, overlap, None)
  }

  function SegmentPieces(style: Style, seg: Segment, size: nat, overlap: nat): seq<Piece>
    requires size > 0
  {
    match seg
    case Whole(text) => [Piece("", "", text)]
    case Forced(text) => ForcedPieces(text, size, overlap, 0)
    case Merged(parts, sep) => PartsPieces(style, parts, sep, size, overlap)
  }

  function Pieces(style: Style, segs: seq<Segment>, size: nat, overlap: nat): seq<Piece>
    requires size > 0
  {
    if segs == [] then []
    else SegmentPieces(style, segs[0], size, overlap) + Pieces(style, segs[1..], size, overlap)
  }

  function Texts(pieces: seq<Piece>): (r: seq<string>)
    ensures |r| == |pieces|
    ensures forall k :: 0 <= k < |pieces| ==> r[k] == pieces[k].Text()
  {
    seq(|pieces|, i requires 0 <= i < |pieces| => pieces[i].Text())
  }

  lemma TextsAppend(a: seq<Piece>, b: seq<Piece>)
    ensures Texts(a + b) == Texts(a) + Texts(b)
  {
  }

  function FreshText(pieces: seq<Piece>): string {
    if pieces == [] then "" else pieces[0].body + FreshText(pieces[1..])
  }

  /** Everything a splitter does to one text. */
  function SplitPieces(style: Style, text: string, seps: seq<string>, depth: nat, size: nat, overlap: nat): seq<Piece>
    requires size > 0 && UsableSeparators(seps)
  {
    Pieces(style, Plan(text, seps, depth, size), size, overlap)
  }

  lemma {:induction false} PiecesAppend(style: Style, a: seq<Segment>, b: seq<Segment>, size: nat, overlap: nat)
    requires size > 0
    ensures Pieces(style, a + b, size, overlap) == Pieces(style, a, size, overlap) + Pieces(style, b, size, overlap)
  {
    if a == [] {
      assert a + b == b;
    } else {
      assert (a + b)[0] == a[0] && (a + b)[1..] == a[1..] + b;
      PiecesAppend(style, a[1..], b, size, overlap);
      Assoc(SegmentPieces(style, a[0], size, overlap), Pieces(style, a[1..], size, overlap),
            Pieces(style, b, size, overlap));
    }
  }

  lemma {:induction false} FreshAppend(a: seq<Piece>, b: seq<Piece>)
    ensures FreshText(a + b) == FreshText(a) + FreshText(b)
  {
    if a == [] {
      assert a + b == b;
    } else {
      assert (a + b)[0] == a[0] && (a + b)[1..] == a[1..] + b;
      FreshAppend(a[1..], b);
      Assoc(a[0].body, FreshText(a[1..]), FreshText(b));
    }
  }

  // ---------- one step of merging, for the loops of both splitters ----------

  /** The chunks still to come while `open` is the open group and its chunk has `len` symbols. */
  ghost function Remaining(style: Style, rest: seq<string>, sep: string, size: nat, overlap: nat,
                           open: seq<string>, len: nat, prev: Option<string>): seq<string>
    requires len > 0 ==> open != []
  {
    GroupsNonEmpty(rest, sep, size, overlap, open, len);
    Texts(MergedPieces(style, Groups(rest, sep, size, overlap, open, len), sep, overlap, prev))
  }

  lemma MergedCons(style: Style, open: seq<string>, after: seq<seq<string>>, sep: string, overlap: nat,
                   prev: Option<string>)
    requires open != [] && NonEmptyGroups(after)
    ensures NonEmptyGroups([open] + after)
    ensures
      var chunk := GroupPiece(style, open, sep, overlap, prev).Text();
      Texts(MergedPieces(style, [open] + after, sep, overlap, prev))
      == [chunk] + Texts(MergedPieces(style, after, sep, overlap, Some(chunk)))
  {
    assert ([open] + after)[1..] == after;
  }

  /** Closing the open chunk emits it; the rest continues behind it. */
  lemma RemainingRestart(style: Style, rest: seq<string>, sep: string, size: nat, overlap: nat,
                         open: seq<string>, len: nat, prev: Option<string>)
    requires rest != [] && 0 < len && len + |sep| + |rest[0]| > size && open != []
    ensures
      var chunk := GroupPiece(style, open, sep, overlap, prev).Text();
      Remaining(style, rest, sep, size, overlap, open, len, prev)
      == [chunk] + Remaining(style, rest[1..], sep, size, overlap, [rest[0]], Restart(len, rest[0], sep, overlap),
                             Some(chunk))
  {
    var restart := Restart(len, rest[0], sep, overlap);
    GroupsNonEmpty(rest[1..], sep, size, overlap, [rest[0]], restart);
    MergedCons(style, open, Groups(rest[1..], sep, size, overlap, [rest[0]], restart), sep, overlap, prev);
  }

  lemma RemainingDone(style: Style, sep: string, size: nat, overlap: nat, open: seq<string>, len: nat,
                      prev: Option<string>)
    requires len > 0 ==> open != []
    ensures Remaining(style, [], sep, size, overlap, open, len, prev)
      == if len > 0 then [GroupPiece(style, open, sep, overlap, prev).Text()] else []
  {
    if len > 0 {
      assert [open] + [] == [open];
      MergedCons(style, open, [], sep, overlap, prev);
    }
  }

  /** What a fresh chunk holds once it took its first part. */
  lemma StartText(style: Style, part: string, sep: string, overlap: nat, prev: Option<string>)
    ensures GroupPiece(style, [part], sep, overlap, prev).Text() ==
      if prev.None? || overlap == 0 then part
      else Tail(prev.value, overlap) + sep + Addition(style, part, sep)
  {
    assert EachThenSep([part], sep) == part + sep;
    if prev.Some? && overlap > 0 {
      var t := Tail(prev.value, overlap);
      Assoc(t, sep, sep);
      Assoc(t + sep, sep, part);
    }
  }

  /** What an open chunk holds once it took one more part. */
  lemma TakeText(style: Style, group: seq<string>, part: string, sep: string, overlap: nat, prev: Option<string>)
    requires group != []
    ensures GroupPiece(style, group + [part], sep, overlap, prev).Text()
      == GroupPiece(style, group, sep, overlap, prev).Text() + Addition(style, part, sep)
  {
    var led := prev.Some? && overlap > 0;
    var p := GroupPiece(style, group, sep, overlap, prev);
    TakeBody(style, group, part, sep, led);
    Assoc(p.tail + p.glue, p.body, Addition(style, part, sep));
  }

  function Addition(style: Style, part: string, sep: string): string {
    if style.RagStyle? then sep + part else part + sep
  }

  lemma TakeBody(style: Style, group: seq<string>, part: string, sep: string, led: bool)
    requires group != []
    ensures Body(style, group + [part], sep, led) == Body(style, group, sep, led) + Addition(style, part, sep)
  {
    if style.RagStyle? {
      JoinAppend(group, part, sep);
      Assoc(Join(group, sep), sep, part);
    } else if led {
      EachAppend(group, part, sep);
    } else {
      assert (group + [part])[1..] == group[1..] + [part];
      EachAppend(group[1..], part, sep);
      Assoc(group[0], EachThenSep(group[1..], sep), part + sep);
    }
  }

  /** The chunk being built, `current`, holds exactly the open group. */
  ghost predicate Building(style: Style, open: seq<string>, current: string, sep: string, overlap: nat,
                           prev: Option<string>) {
    && (current != "" ==> open != [] && current == GroupPiece(style, open, sep, overlap, prev).Text())
    && (current == "" && prev.Some? ==> overlap == 0)
  }

  predicate MustClose(current: string, part: string, sep: string, size: nat) {
    current != "" && |current| + |sep| + |part| > size
  }

  /** The chunk being built after one more part. */
  function Written(style: Style, current: string, part: string, sep: string, size: nat, overlap: nat): string {
    if current == "" || (MustClose(current, part, sep, size) && overlap == 0) then part
    else
      var before := if MustClose(current, part, sep, size) then Tail(current, overlap) + sep else current;
      before + Addition(style, part, sep)
  }

  /** An empty chunk takes its first part. */
  lemma RemainingStart(style: Style, rest: seq<string>, sep: string, size: nat, overlap: nat, open: seq<string>,
                       prev: Option<string>)
    requires rest != []
    ensures
      var open' := if rest[0] == "" then [] else [rest[0]];
      Remaining(style, rest, sep, size, overlap, open, 0, prev)
      == Remaining(style, rest[1..], sep, size, overlap, open', |rest[0]|, prev)
  {
    var open' := if rest[0] == "" then [] else [rest[0]];
    assert Groups(rest, sep, size, overlap, open, 0) == Groups(rest[1..], sep, size, overlap, open', |rest[0]|);
  }

  /** A chunk with room takes one more part. */
  lemma RemainingTake(style: Style, rest: seq<string>, sep: string, size: nat, overlap: nat,
                      open: seq<string>, len: nat, prev: Option<string>)
    requires rest != [] && 0 < len && len + |sep| + |rest[0]| <= size && open != []
    ensures Remaining(style, rest, sep, size, overlap, open, len, prev)
      == Remaining(style, rest[1..], sep, size, overlap, open + [rest[0]], len + |sep| + |rest[0]|, prev)
  {
  }

  /** One iteration of either merge loop on an empty chunk. */
  lemma AdvanceEmpty(style: Style, rest: seq<string>, sep: string, size: nat, overlap: nat, open: seq<string>,
                     prev: Option<string>)
    requires rest != [] && Building(style, open, "", sep, overlap, prev)
    ensures
      var open' := if rest[0] == "" then [] else [rest[0]];
      && Building(style, open', rest[0], sep, overlap, prev)
      && Remaining(style, rest, sep, size, overlap, open, 0, prev)
      == Remaining(style, rest[1..], sep, size, overlap, open', |rest[0]|, prev)
  {
    StartText(style, rest[0], sep, overlap, prev);
    RemainingStart(style, rest, sep, size, overlap, open, prev);
  }

  /** One iteration on a chunk that has no room for the part. */
  lemma AdvanceFull(style: Style, rest: seq<string>, sep: string, size: nat, overlap: nat,
                    open: seq<string>, current: string, prev: Option<string>)
    requires rest != [] && sep != "" && MustClose(current, rest[0], sep, size) &&
      Building(style, open, current, sep, overlap, prev)
    ensures
      var current' := Written(style, current, rest[0], sep, size, overlap);
      && Building(style, [rest[0]], current', sep, overlap, Some(current))
      && Remaining(style, rest, sep, size, overlap, open, |current|, prev)
      == [current] + Remaining(style, rest[1..], sep, size, overlap, [rest[0]], |current'|, Some(current))
  {
    StartText(style, rest[0], sep, overlap, Some(current));
    RemainingRestart(style, rest, sep, size, overlap, open, |current|, prev);
    assert |Written(style, current, rest[0], sep, size, overlap)| == Restart(|current|, rest[0], sep, overlap);
  }

  /** One iteration on a chunk that takes the part. */
  lemma AdvanceTaking(style: Style, rest: seq<string>, sep: string, size: nat, overlap: nat,
                      open: seq<string>, current: string, prev: Option<string>)
    requires rest != [] && current != "" && !MustClose(current, rest[0], sep, size) &&
      Building(style, open, current, sep, overlap, prev)
    ensures
      var current' := Written(style, current, rest[0], sep, size, overlap);
      && Building(style, open + [rest[0]], current', sep, overlap, prev)
      && Remaining(style, rest, sep, size, overlap, open, |current|, prev)
      == Remaining(style, rest[1..], sep, size, overlap, open + [rest[0]], |current'|, prev)
  {
    TakeText(style, open, rest[0], sep, overlap, prev);
    RemainingTake(style, rest, sep, size, overlap, open, |current|, prev);
    assert |Written(style, current, rest[0], sep, size, overlap)| == |current| + |sep| + |rest[0]|;
  }

  lemma NothingBefore<T>(s: seq<T>)
    ensures [] + s == s
  {
  }

  /** One iteration of either merge loop. */
  lemma Advance(style: Style, rest: seq<string>, sep: string, size: nat, overlap: nat,
                open: seq<string>, current: string, prev: Option<string>)
    returns (open': seq<string>, prev': Option<string>)
    requires rest != [] && sep != "" && Building(style, open, current, sep, overlap, prev)
    ensures
      var current' := Written(style, current, rest[0], sep, size, overlap);
      && Building(style, open', current', sep, overlap, prev')
      && Remaining(style, rest, sep, size, overlap, open, |current|, prev)
      == (if MustClose(current, rest[0], sep, size) then [current] else [])
         + Remaining(style, rest[1..], sep, size, overlap, open', |current'|, prev')
  {
    prev' := prev;
    if current == "" {
      open' := if rest[0] == "" then [] else [rest[0]];
      AdvanceEmpty(style, rest, sep, size, overlap, open, prev);
    } else if MustClose(current, rest[0], sep, size) {
      open', prev' := [rest[0]], Some(current);
      AdvanceFull(style, rest, sep, size, overlap, open, current, prev);
    } else {
      open' := open + [rest[0]];
      AdvanceTaking(style, rest, sep, size, overlap, open, current, prev);
    }
    NothingBefore(Remaining(style, rest[1..], sep, size, overlap, open',
                            |Written(style, current, rest[0], sep, size, overlap)|, prev'));
  }

  /** One iteration behind the chunks emitted so far. */
  lemma AdvanceAfter(style: Style, chunks: seq<string>, rest: seq<string>, sep: string, size: nat, overlap: nat,
                     open: seq<string>, current: string, prev: Option<string>)
    returns (open': seq<string>, prev': Option<string>)
    requires rest != [] && sep != "" && Building(style, open, current, sep, overlap, prev)
    ensures
      var current' := Written(style, current, rest[0], sep, size, overlap);
      && Building(style, open', current', sep, overlap, prev')
      && chunks + Remaining(style, rest, sep, size, overlap, open, |current|, prev)
      == chunks + (if MustClose(current, rest[0], sep, size) then [current] else [])
         + Remaining(style, rest[1..], sep, size, overlap, open', |current'|, prev')
  {
    open', prev' := Advance(style, rest, sep, size, overlap, open, current, prev);
    Assoc(chunks, if MustClose(current, rest[0], sep, size) then [current] else [],
          Remaining(style, rest[1..], sep, size, overlap, open',
                    |Written(style, current, rest[0], sep, size, overlap)|, prev'));
  }

  lemma {:induction false} EachAppend(parts: seq<string>, last: string, sep: string)
    ensures EachThenSep(parts + [last], sep) == EachThenSep(parts, sep) + (last + sep)
  {
    if parts == [] {
      assert parts + [last] == [last];
      assert EachThenSep([last], sep) == last + sep + EachThenSep([last][1..], sep);
    } else {
      EachAppend(parts[1..], last, sep);
      assert (parts + [last])[1..] == parts[1..] + [last];
      Assoc(parts[0] + sep, EachThenSep(parts[1..], sep), last + sep);
    }
  }

  // ---------- one step of the recursion and of forced cutting ----------

  /** The chunks still to come while `good` collects parts small enough to merge. */
  function RestTexts(style: Style, parts: seq<string>, good: seq<string>, seps: seq<string>, depth: nat, size: nat,
                     overlap: nat): seq<string>
    requires size > 0 && UsableSeparators(seps) && depth < |seps|
  {
    Texts(Pieces(style, PlanParts(parts, good, seps, depth, size), size, overlap))
  }

  function FlushTexts(style: Style, good: seq<string>, sep: string, size: nat, overlap: nat): seq<string> {
    if good == [] then [] else Texts(PartsPieces(style, good, sep, size, overlap))
  }

  lemma FlushPieces(style: Style, good: seq<string>, sep: string, size: nat, overlap: nat)
    requires size > 0
    ensures Texts(Pieces(style, Flush(good, sep), size, overlap)) == FlushTexts(style, good, sep, size, overlap)
  {
    if good != [] {
      var merged := [Merged(good, sep)];
      var ps := PartsPieces(style, good, sep, size, overlap);
      assert Pieces(style, merged[1..], size, overlap) == [];
      assert ps + [] == ps;
    }
  }

  lemma RestDone(style: Style, good: seq<string>, seps: seq<string>, depth: nat, size: nat, overlap: nat)
    requires size > 0 && UsableSeparators(seps) && depth < |seps|
    ensures RestTexts(style, [], good, seps, depth, size, overlap)
      == FlushTexts(style, good, seps[depth], size, overlap)
  {
    FlushPieces(style, good, seps[depth], size, overlap);
  }

  lemma RestOversized(style: Style, parts: seq<string>, good: seq<string>, seps: seq<string>, depth: nat, size: nat,
                      overlap: nat)
    requires size > 0 && UsableSeparators(seps) && depth < |seps|
    requires parts != [] && |TrimSpace(parts[0])| > size
    ensures RestTexts(style, parts, good, seps, depth, size, overlap)
      == FlushTexts(style, good, seps[depth], size, overlap)
         + Texts(SplitPieces(style, TrimSpace(parts[0]), seps, depth + 1, size, overlap))
         + RestTexts(style, parts[1..], [], seps, depth, size, overlap)
  {
    var a := Flush(good, seps[depth]);
    var b := Plan(TrimSpace(parts[0]), seps, depth + 1, size);
    var c := PlanParts(parts[1..], [], seps, depth, size);
    assert PlanParts(parts, good, seps, depth, size) == a + b + c;
    FlushPieces(style, good, seps[depth], size, overlap);
    PiecesAppend(style, a + b, c, size, overlap);
    PiecesAppend(style, a, b, size, overlap);
    var pa, pb, pc := Pieces(style, a, size, overlap), Pieces(style, b, size, overlap), Pieces(style, c, size, overlap);
    TextsAppend(pa + pb, pc);
    TextsAppend(pa, pb);
  }

  lemma WholeTexts(style: Style, text: string, seps: seq<string>, depth: nat, size: nat, overlap: nat)
    requires size > 0 && UsableSeparators(seps)
    ensures |text| <= size ==> Texts(SplitPieces(style, text, seps, depth, size, overlap)) == [text]
    ensures |text| > size && depth >= |seps| ==>
      Texts(SplitPieces(style, text, seps, depth, size, overlap)) == Texts(ForcedPieces(text, size, overlap, 0))
  {
    var plan := Plan(text, seps, depth, size);
    if |text| <= size || depth >= |seps| {
      assert Pieces(style, plan[1..], size, overlap) == [];
      assert Pieces(style, plan, size, overlap) == SegmentPieces(style, plan[0], size, overlap);
      assert "" + "" + text == text;
    }
  }

  lemma ForcedTexts(text: string, size: nat, overlap: nat, dup: nat)
    requires size > 0 && dup <= size && dup <= |text|
    ensures Texts(ForcedPieces(text, size, overlap, dup)) ==
      if text == "" then []
      else if |text| <= size then [text]
      else [text[..size]]
           + Texts(ForcedPieces(text[Step(size, overlap)..], size, overlap, size - Step(size, overlap)))
  {
    if text == "" {
    } else if |text| <= size {
      assert text[..dup] + "" + text[dup..] == text;
    } else {
      assert text[..dup] + "" + text[dup..size] == text[..size];
    }
  }

  /** One iteration of forced cutting behind the chunks emitted so far. */
  lemma ForcedAfter(chunks: seq<string>, text: string, size: nat, overlap: nat, dup: nat)
    requires size > 0 && dup <= size && dup <= |text| && text != ""
    ensures chunks + Texts(ForcedPieces(text, size, overlap, dup)) ==
      if |text| <= size then chunks + [text]
      else chunks + [text[..size]]
           + Texts(ForcedPieces(text[Step(size, overlap)..], size, overlap, size - Step(size, overlap)))
  {
    ForcedTexts(text, size, overlap, dup);
    if |text| > size {
      Assoc(chunks, [text[..size]],
            Texts(ForcedPieces(text[Step(size, overlap)..], size, overlap, size - Step(size, overlap))));
    }
  }

  lemma NothingAfter(chunks: seq<string>, size: nat, overlap: nat)
    requires size > 0
    ensures chunks + Texts(ForcedPieces("", size, overlap, 0)) == chunks
  {
  }

  lemma SeparatorsAreValid()
    ensures ValidSeparators(SEPARATORS)
    ensures forall k :: 0 <= k < |SEPARATORS| ==> |SEPARATORS[k]| <= 2
  {
    forall k | 0 <= k < |SEPARATORS| ensures ValidSeparator(SEPARATORS[k]) {
      var s := SEPARATORS[k];
      assert |s| == 2 ==> s[1..] == [s[1]];
      assert Kept(s[1..]) == "" by { assert |s| == 1 || s[1..][1..] == ""; }
    }
  }
}
