/** Chunks within a token budget. */
module TokenBudget {
  // What the token-aware line packer guarantees, and when it stays within its budget.

  import opened Wrappers
  import opened Text
  import opened Greedy
  import opened TokenChunker

  // ---------- nothing is lost ----------

  function FreshLines(packs: seq<Pack>): seq<string> {
    if packs == [] then [] else packs[0].lines + FreshLines(packs[1..])
  }

  lemma {:induction false} PacksConserve(lines: seq<string>, tokenize: Tokenizer, size: int, overlap: int, open: Pack)
    ensures Concat(FreshLines(Packs(lines, tokenize, size, overlap, open))) == Concat(open.lines) + Concat(lines)
    decreases |lines|
  {
    if lines == [] {
      if open.Text() != "" {
        assert FreshLines([open]) == open.lines + FreshLines([open][1..]) == open.lines;
      }
    } else {
      var next := After(open, lines[0], tokenize, size, overlap);
      var rest := Packs(lines[1..], tokenize, size, overlap, next);
      PacksConserve(lines[1..], tokenize, size, overlap, next);
      ConcatAppend(open.lines, [lines[0]]);
      assert Concat([lines[0]]) == lines[0] + Concat([lines[0]][1..]) == lines[0];
      Assoc(Concat(open.lines), lines[0], Concat(lines[1..]));
      if Closes(open, lines[0], tokenize, size) {
        assert ([open] + rest)[1..] == rest;
        ConcatAppend(open.lines, FreshLines(rest));
      } else {
        assert [] + rest == rest;
      }
    }
  }

  /** The lines the chunks add, put together, are the content. */
  lemma ContentConserved(content: string, tokenize: Tokenizer, size: int, overlap: int)
    ensures Concat(FreshLines(ContentPacks(content, tokenize, size, overlap))) == content
  {
    if content != "" {
      var lines := Split(content, "\n");
      PacksConserve(Lines(lines), tokenize, size, overlap, EMPTY);
      LinesRejoin(lines);
      JoinSplit(content, "\n");
      assert "" + content == content;
    }
  }

  // ---------- the shape of every chunk ----------

  /** What a chunk repeats from the text of the chunk before it. */
  function Repeated(prev: Option<string>, tokenize: Tokenizer, overlap: int): string {
    if prev.Some? && overlap > 0 then TailOf(prev.value, overlap, tokenize) else ""
  }

  /** Repeats exactly the overlap tail, and is within the budget unless it adds at most one line. */
  predicate ProperPack(p: Pack, prev: Option<string>, tokenize: Tokenizer, size: int, overlap: int) {
    && p.tail == Repeated(prev, tokenize, overlap)
    && (tokenize(p.Text()) <= size || |p.lines| <= 1)
    && p.Text() != ""
  }

  /** Every chunk is proper, and only the last may add no text of its own. */
  predicate ProperPacks(packs: seq<Pack>, prev: Option<string>, tokenize: Tokenizer, size: int, overlap: int) {
    packs != [] ==>
      && ProperPack(packs[0], prev, tokenize, size, overlap)
      && (|packs| > 1 ==> Concat(packs[0].lines) != "")
      && ProperPacks(packs[1..], Some(packs[0].Text()), tokenize, size, overlap)
  }

  /** Only the last line may be empty. */
  predicate ProperLines(lines: seq<string>) {
    forall k :: 0 <= k < |lines| - 1 ==> lines[k] != ""
  }

  /** The open chunk while lines are still to come. */
  predicate ProperOpen(open: Pack, more: bool, prev: Option<string>, tokenize: Tokenizer, size: int, overlap: int) {
    && (open == EMPTY ==> prev.None?)
    && (open != EMPTY ==> open.lines != [] && open.tail == Repeated(prev, tokenize, overlap))
    && (|open.lines| > 1 ==> tokenize(open.Text()) <= size)
    && (more && open != EMPTY ==> Concat(open.lines) != "")
  }

  lemma {:induction false} PacksAreProper(lines: seq<string>, tokenize: Tokenizer, size: int, overlap: int,
                                          open: Pack, prev: Option<string>)
    requires ProperLines(lines) && ProperOpen(open, lines != [], prev, tokenize, size, overlap)
    ensures ProperPacks(Packs(lines, tokenize, size, overlap, open), prev, tokenize, size, overlap)
    decreases |lines|
  {
    if lines == [] {
      assert open.Text() != "" ==> [open][1..] == [];
    } else {
      var line, rest := lines[0], lines[1..];
      var next := After(open, line, tokenize, size, overlap);
      AfterText(open, line, tokenize, size, overlap);
      ConcatAppend(open.lines, [line]);
      assert Concat([line]) == line + Concat([line][1..]) == line;
      assert ProperLines(rest);
      if Closes(open, line, tokenize, size) {
        PacksAreProper(rest, tokenize, size, overlap, next, Some(open.Text()));
        var after := Packs(rest, tokenize, size, overlap, next);
        assert ([open] + after)[1..] == after;
      } else {
        PacksAreProper(rest, tokenize, size, overlap, next, prev);
        assert [] + Packs(rest, tokenize, size, overlap, next) == Packs(rest, tokenize, size, overlap, next);
      }
    }
  }

  lemma ContentIsProper(content: string, tokenize: Tokenizer, size: int, overlap: int)
    ensures ProperPacks(ContentPacks(content, tokenize, size, overlap), None, tokenize, size, overlap)
  {
    if content != "" {
      var lines := Split(content, "\n");
      LinesRejoin(lines);
      assert forall k :: 0 <= k < |lines| - 1 ==> Lines(lines)[k] == lines[k] + "\n" && Lines(lines)[k] != "";
      PacksAreProper(Lines(lines), tokenize, size, overlap, EMPTY, None);
    }
  }

  // ---------- chunks are closed late ----------

  /**
   * Every chunk but the last was closed only because the first line of the next one did not fit behind it; every
   * line but its first did.
   */
  predicate ClosedLate(packs: seq<Pack>, tokenize: Tokenizer, size: int) {
    && (forall k :: 0 <= k < |packs| ==> TookWhatFits(packs[k], tokenize, size))
    && forall k :: 0 < k < |packs| ==> DidNotFit(packs[k - 1], packs[k], tokenize, size)
  }

  predicate DidNotFit(p: Pack, next: Pack, tokenize: Tokenizer, size: int) {
    next.lines != [] && tokenize(p.Text() + next.lines[0]) > size
  }

  predicate TookWhatFits(p: Pack, tokenize: Tokenizer, size: int) {
    forall j :: 1 < j <= |p.lines| ==> tokenize(p.tail + Concat(p.lines[..j])) <= size
  }

  lemma TakesOneMore(open: Pack, line: string, tokenize: Tokenizer, size: int)
    requires TookWhatFits(open, tokenize, size) && !Closes(open, line, tokenize, size)
    requires open.lines != [] ==> open.Text() != ""
    ensures TookWhatFits(Pack(open.tail, open.lines + [line]), tokenize, size)
  {
    var lines := open.lines + [line];
    forall j | 1 < j <= |lines| ensures tokenize(open.tail + Concat(lines[..j])) <= size {
      if j == |lines| {
        assert lines[..j] == lines;
        ConcatAppend(open.lines, [line]);
        assert Concat([line]) == line + Concat([line][1..]) == line;
        Assoc(open.tail, Concat(open.lines), line);
      } else {
        assert lines[..j] == open.lines[..j];
      }
    }
  }

  lemma ClosedLateFirst(p: Pack, rest: seq<Pack>, tokenize: Tokenizer, size: int)
    requires TookWhatFits(p, tokenize, size) && ClosedLate(rest, tokenize, size)
    requires rest != [] ==> DidNotFit(p, rest[0], tokenize, size)
    ensures ClosedLate([p] + rest, tokenize, size)
  {
    var all := [p] + rest;
    forall k | 0 < k < |all| ensures DidNotFit(all[k - 1], all[k], tokenize, size) {
      assert all[k] == rest[k - 1];
      assert k > 1 ==> all[k - 1] == rest[k - 2] && DidNotFit(rest[k - 2], rest[k - 1], tokenize, size);
    }
  }

  lemma {:induction false} PacksCloseLate(lines: seq<string>, tokenize: Tokenizer, size: int, overlap: int, open: Pack)
    requires ProperLines(lines) && TookWhatFits(open, tokenize, size)
    requires lines != [] && open.lines != [] ==> open.Text() != ""
    ensures ClosedLate(Packs(lines, tokenize, size, overlap, open), tokenize, size)
    decreases |lines|
  {
    if lines != [] {
      var line, rest := lines[0], lines[1..];
      var next := After(open, line, tokenize, size, overlap);
      var after := Packs(rest, tokenize, size, overlap, next);
      AfterText(open, line, tokenize, size, overlap);
      assert ProperLines(rest);
      if Closes(open, line, tokenize, size) {
        assert TookWhatFits(next, tokenize, size);
        PacksCloseLate(rest, tokenize, size, overlap, next);
        FirstLineStays(rest, tokenize, size, overlap, next);
        ClosedLateFirst(open, after, tokenize, size);
      } else {
        TakesOneMore(open, line, tokenize, size);
        PacksCloseLate(rest, tokenize, size, overlap, next);
        assert [] + after == after;
      }
    }
  }

  /** The first line of the open chunk is the first line of the first chunk. */
  lemma {:induction false} FirstLineStays(lines: seq<string>, tokenize: Tokenizer, size: int, overlap: int, open: Pack)
    requires open.lines != []
    ensures
      var packs := Packs(lines, tokenize, size, overlap, open);
      packs != [] ==> packs[0].lines != [] && packs[0].lines[0] == open.lines[0]
    decreases |lines|
  {
    if lines != [] && !Closes(open, lines[0], tokenize, size) {
      var next := After(open, lines[0], tokenize, size, overlap);
      FirstLineStays(lines[1..], tokenize, size, overlap, next);
      assert [] + Packs(lines[1..], tokenize, size, overlap, next) == Packs(lines[1..], tokenize, size, overlap, next);
    }
  }

  /** For every overlap and any tokenizer a chunk takes lines as long as they fit. */
  lemma ContentClosesLate(content: string, tokenize: Tokenizer, size: int, overlap: int)
    ensures ClosedLate(ContentPacks(content, tokenize, size, overlap), tokenize, size)
  {
    if content != "" {
      var lines := Split(content, "\n");
      LinesRejoin(lines);
      assert forall k :: 0 <= k < |lines| - 1 ==> Lines(lines)[k] == lines[k] + "\n" && Lines(lines)[k] != "";
      PacksCloseLate(Lines(lines), tokenize, size, overlap, EMPTY);
    }
  }

  // ---------- fewest chunks ----------

  ghost predicate Monotone(tokenize: Tokenizer) {
    forall s: string, i: nat, j: nat :: i <= j <= |s| ==> tokenize(s[i..j]) <= tokenize(s)
  }

  /** Lines fit when their text is within the budget; a single line always fits. */
  ghost function FitsLines(tokenize: Tokenizer, size: int): seq<string> -> bool {
    group => |group| == 1 || tokenize(Concat(group)) <= size
  }

  lemma ConcatThree(a: seq<string>, b: seq<string>, c: seq<string>)
    ensures Concat(a + b + c) == Concat(a) + Concat(b) + Concat(c)
  {
    ConcatAppend(a + b, c);
    ConcatAppend(a, b);
  }

  lemma MidWithin(a: seq<string>, b: seq<string>, c: seq<string>, tokenize: Tokenizer)
    requires Monotone(tokenize)
    ensures tokenize(Concat(b)) <= tokenize(Concat(a + b + c))
  {
    ConcatThree(a, b, c);
    var x, y, z := Concat(a), Concat(b), Concat(c);
    assert (x + y + z)[|x|..|x| + |y|] == y;
  }

  lemma FitsLinesHereditary(tokenize: Tokenizer, size: int)
    requires Monotone(tokenize)
    ensures Hereditary(FitsLines(tokenize, size))
  {
    var fits := FitsLines(tokenize, size);
    forall g: seq<string>, i: nat, j: nat | fits(g) && i < j <= |g| ensures fits(g[i..j]) {
      assert g == g[..i] + g[i..j] + g[j..];
      MidWithin(g[..i], g[i..j], g[j..], tokenize);
    }
  }

  function Groups(packs: seq<Pack>): (r: seq<seq<string>>)
    ensures |r| == |packs|
  {
    if packs == [] then [] else [packs[0].lines] + Groups(packs[1..])
  }

  predicate AllNonEmpty(lines: seq<string>) {
    forall k :: 0 <= k < |lines| ==> lines[k] != ""
  }

  lemma {:induction false} PacksGreedy(lines: seq<string>, tokenize: Tokenizer, size: int, open: Pack)
    requires AllNonEmpty(lines) && open.tail == "" && (open.lines == [] || Concat(open.lines) != "")
    ensures
      var groups := Groups(Packs(lines, tokenize, size, 0, open));
      && IsGreedy(groups, FitsLines(tokenize, size))
      && Flatten(groups) == open.lines + lines
      && (open.lines != [] ==> groups != [] && open.lines <= groups[0])
    decreases |lines|
  {
    assert "" + Concat(open.lines) == Concat(open.lines);
    if lines == [] {
      if open.lines != [] {
        OneGroup(open, FitsLines(tokenize, size));
      }
    } else {
      var line, rest := lines[0], lines[1..];
      var next := After(open, line, tokenize, size, 0);
      var after := Packs(rest, tokenize, size, 0, next);
      ConcatAppend(open.lines, [line]);
      assert Concat([line]) == line + Concat([line][1..]) == line;
      assert lines == [line] + rest;
      PacksGreedy(rest, tokenize, size, next);
      if Closes(open, line, tokenize, size) {
        MoreGroups(open, after, FitsLines(tokenize, size));
      } else {
        assert [] + after == after;
        Assoc(open.lines, [line], rest);
      }
    }
  }

  lemma OneGroup(open: Pack, fits: seq<string> -> bool)
    requires open.lines != []
    ensures Groups([open]) == [open.lines] && Flatten([open.lines]) == open.lines && IsGreedy([open.lines], fits)
  {
    assert [open][1..] == [];
    var one := [open.lines];
    assert one[1..] == [] && open.lines + [] == open.lines;
  }

  lemma MoreGroups(open: Pack, after: seq<Pack>, fits: seq<string> -> bool)
    requires open.lines != [] && IsGreedy(Groups(after), fits)
    requires after != [] ==> after[0].lines != [] && !fits(open.lines + [after[0].lines[0]])
    ensures
      var groups := Groups([open] + after);
      && groups == [open.lines] + Groups(after)
      && IsGreedy(groups, fits)
      && Flatten(groups) == open.lines + Flatten(Groups(after))
  {
    assert ([open] + after)[1..] == after;
    assert ([open.lines] + Groups(after))[1..] == Groups(after);
  }

  /** A final empty line, left behind by a line feed at the end, costs no chunk. */
  lemma {:induction false} FinalEmptyLine(lines: seq<string>, tokenize: Tokenizer, size: int, open: Pack)
    requires open.tail == ""
    ensures |Packs(lines + [""], tokenize, size, 0, open)| == |Packs(lines, tokenize, size, 0, open)|
    decreases |lines|
  {
    if lines == [] {
      assert lines + [""] == [""] && [""][1..] == [];
      AfterText(open, "", tokenize, size, 0);
      assert Packs([], tokenize, size, 0, After(open, "", tokenize, size, 0)) == if open.Text() == "" ||
        Closes(open, "", tokenize, size)
        then [] else [After(open, "", tokenize, size, 0)];
    } else {
      assert (lines + [""])[1..] == lines[1..] + [""];
      FinalEmptyLine(lines[1..], tokenize, size, After(open, lines[0], tokenize, size, 0));
    }
  }

  /** The lines of the content that hold any text. */
  function TextLines(content: string): seq<string> {
    var lines := Lines(Split(content, "\n"));
    if lines != [] && lines[|lines| - 1] == "" then lines[..|lines| - 1] else lines
  }

  /** The lines put together are the content. */
  lemma TextLinesRejoin(content: string)
    ensures Concat(TextLines(content)) == content
  {
    var lines := Lines(Split(content, "\n"));
    LinesRejoin(Split(content, "\n"));
    JoinSplit(content, "\n");
    if TextLines(content) != lines {
      DropEmpty(TextLines(content));
      assert lines == TextLines(content) + [""];
    }
  }

  /** A line feed is the last symbol of its line. */
  lemma FeedIsLast(content: string, k: nat, i: nat)
    requires k < |TextLines(content)| && i < |TextLines(content)[k]| - 1
    ensures TextLines(content)[k][i] != '\n'
  {
    var parts := Split(content, "\n");
    LinesRejoin(parts);
    SplitParts(content, '\n', parts[k]);
    assert TextLines(content)[k] == Lines(parts)[k];
    assert parts[k][i] in parts[k];
  }

  lemma DropEmpty(lines: seq<string>)
    ensures Concat(lines + [""]) == Concat(lines)
  {
    ConcatAppend(lines, [""]);
    assert Concat([""]) == "" + Concat([""][1..]) == "";
    assert Concat(lines) + "" == Concat(lines);
  }

  lemma TextLinesNonEmpty(content: string)
    ensures AllNonEmpty(TextLines(content))
  {
    LinesRejoin(Split(content, "\n"));
  }

  /** With no overlap and a monotone tokenizer, no line-aligned split within the budget uses fewer chunks. */
  lemma PackingIsOptimal(content: string, tokenize: Tokenizer, size: int, other: seq<seq<string>>)
    requires Monotone(tokenize) && IsGrouping(other, TextLines(content), FitsLines(tokenize, size))
    ensures |ContentPacks(content, tokenize, size, 0)| <= |other|
  {
    var all, lines := Lines(Split(content, "\n")), TextLines(content);
    TextLinesNonEmpty(content);
    var packs := Packs(lines, tokenize, size, 0, EMPTY);
    PacksGreedy(lines, tokenize, size, EMPTY);
    if lines != all {
      assert all == lines + [""];
      FinalEmptyLine(lines, tokenize, size, EMPTY);
    }
    FitsLinesHereditary(tokenize, size);
    assert [] + lines == lines;
    GreedyIsOptimal(Groups(packs), other, lines, FitsLines(tokenize, size));
  }

  // ---------- when every chunk is within the budget ----------

  predicate WithinBudget(packs: seq<Pack>, tokenize: Tokenizer, size: int) {
    forall k :: 0 <= k < |packs| ==> tokenize(packs[k].Text()) <= size
  }

  predicate LinesWithin(lines: seq<string>, tokenize: Tokenizer, size: int) {
    forall k :: 0 <= k < |lines| ==> tokenize(lines[k]) <= size
  }

  lemma WithinAppend(a: seq<Pack>, b: seq<Pack>, tokenize: Tokenizer, size: int)
    ensures WithinBudget(a + b, tokenize, size) <==> WithinBudget(a, tokenize, size) && WithinBudget(b, tokenize, size)
  {
    assert forall k :: 0 <= k < |a| ==> (a + b)[k] == a[k];
    assert forall k :: 0 <= k < |b| ==> (a + b)[|a| + k] == b[k];
  }

  /** A line that is too long for a monotone tokenizer makes its chunk too long. */
  lemma {:induction false} LongLineOverruns(lines: seq<string>, tokenize: Tokenizer, size: int, overlap: int,
                                            open: Pack)
    requires Monotone(tokenize) && AllNonEmpty(lines)
    requires WithinBudget(Packs(lines, tokenize, size, overlap, open), tokenize, size)
    ensures LinesWithin(lines, tokenize, size)
    ensures open.Text() != "" ==> tokenize(open.Text()) <= size
    decreases |lines|
  {
    if lines == [] {
      assert open.Text() != "" ==> Packs(lines, tokenize, size, overlap, open)[0] == open;
    } else {
      var line, rest := lines[0], lines[1..];
      var next := After(open, line, tokenize, size, overlap);
      var closed := if Closes(open, line, tokenize, size) then [open] else [];
      WithinAppend(closed, Packs(rest, tokenize, size, overlap, next), tokenize, size);
      AfterText(open, line, tokenize, size, overlap);
      LongLineOverruns(rest, tokenize, size, overlap, next);
      PartsWithin(if closed == [] then open.Text() else next.tail, line, tokenize, size);
      assert closed != [] ==> closed[0] == open;
      assert lines == [line] + rest;
    }
  }

  lemma PartsWithin(a: string, b: string, tokenize: Tokenizer, size: int)
    requires Monotone(tokenize)
    ensures tokenize(a + b) <= size ==> tokenize(a) <= size && tokenize(b) <= size
  {
    assert (a + b)[0..|a|] == a && (a + b)[|a|..|a| + |b|] == b;
  }

  /** With no overlap, a chunk of one line is that line. */
  lemma {:induction false} ShortLinesFit(lines: seq<string>, tokenize: Tokenizer, size: int, open: Pack)
    requires LinesWithin(lines, tokenize, size) && open.tail == ""
    requires open.Text() != "" ==> tokenize(open.Text()) <= size
    ensures WithinBudget(Packs(lines, tokenize, size, 0, open), tokenize, size)
    decreases |lines|
  {
    if lines != [] {
      var line := lines[0];
      AfterText(open, line, tokenize, size, 0);
      assert "" + line == line;
      ShortLinesFit(lines[1..], tokenize, size, After(open, line, tokenize, size, 0));
    }
  }

  /**
   * "Each chunk stays within a token budget": with no overlap and a monotone tokenizer,
   * that is so exactly when every line is within the budget.
   */
  lemma BudgetHoldsIff(content: string, tokenize: Tokenizer, size: int)
    requires Monotone(tokenize)
    ensures WithinBudget(ContentPacks(content, tokenize, size, 0), tokenize, size)
      <==> LinesWithin(TextLines(content), tokenize, size)
  {
    var all, lines := Lines(Split(content, "\n")), TextLines(content);
    TextLinesNonEmpty(content);
    if content != "" {
      if LinesWithin(lines, tokenize, size) {
        ContentLines(content);
        var first := lines[0];
        assert first[0..0] == "" && tokenize("") <= tokenize(first);
        ShortLinesFit(all, tokenize, size, EMPTY);
      }
      if WithinBudget(ContentPacks(content, tokenize, size, 0), tokenize, size) {
        if lines != all {
          assert all == lines + [""];
          DropEmptyLine(lines, tokenize, size, EMPTY);
        }
        LongLineOverruns(lines, tokenize, size, 0, EMPTY);
      }
    }
  }

  lemma ContentLines(content: string)
    requires content != ""
    ensures TextLines(content) != []
  {
    var lines := Split(content, "\n");
    LinesRejoin(lines);
    JoinSplit(content, "\n");
  }

  /** Without the final empty line the chunks hold the same texts. */
  lemma {:induction false} DropEmptyLine(lines: seq<string>, tokenize: Tokenizer, size: int, open: Pack)
    requires open.tail == "" && WithinBudget(Packs(lines + [""], tokenize, size, 0, open), tokenize, size)
    ensures WithinBudget(Packs(lines, tokenize, size, 0, open), tokenize, size)
    decreases |lines|
  {
    if lines == [] {
      assert lines + [""] == [""] && [""][1..] == [];
      var next := After(open, "", tokenize, size, 0);
      var closed := if Closes(open, "", tokenize, size) then [open] else [];
      AfterText(open, "", tokenize, size, 0);
      WithinAppend(closed, Packs([], tokenize, size, 0, next), tokenize, size);
      assert closed == [] && open.Text() != "" ==> Packs([], tokenize, size, 0, next)[0] == next;
      assert closed != [] ==> closed[0] == open;
      assert open.Text() + "" == open.Text();
    } else {
      assert (lines + [""])[0] == lines[0] && (lines + [""])[1..] == lines[1..] + [""];
      var next := After(open, lines[0], tokenize, size, 0);
      var closed := if Closes(open, lines[0], tokenize, size) then [open] else [];
      WithinAppend(closed, Packs(lines[1..] + [""], tokenize, size, 0, next), tokenize, size);
      DropEmptyLine(lines[1..], tokenize, size, next);
      WithinAppend(closed, Packs(lines[1..], tokenize, size, 0, next), tokenize, size);
    }
  }

  // ---------- the budget with overlap ----------

  predicate EndsLine(s: string) {
    s != "" && s[|s| - 1] == '\n'
  }

  /** Every line but the last ends in a line feed. */
  predicate FeedLines(lines: seq<string>) {
    forall k :: 0 <= k < |lines| - 1 ==> EndsLine(lines[k])
  }

  /** What a chunk that ends in a line feed hands on: the line feed when that fits the overlap, and otherwise itself. */
  lemma TailOfLine(text: string, tokenize: Tokenizer, overlap: int)
    requires EndsLine(text) && overlap > 0
    ensures tokenize("\n") <= overlap ==> TailOf(text, overlap, tokenize) == "\n"
    ensures Monotone(tokenize) && tokenize("\n") > overlap ==> TailOf(text, overlap, tokenize) == text
  {
    assert text[|text| - 1..] == "\n";
    if Monotone(tokenize) && tokenize("\n") > overlap {
      forall j | 0 <= j < |text| ensures !Fits(tokenize, overlap, text, j) {
        assert text[j..][|text| - 1 - j..|text| - j] == "\n";
      }
      ShortestFitIs(text, overlap, tokenize, |text|);
    }
  }

  predicate FollowersWithin(lines: seq<string>, tokenize: Tokenizer, size: int) {
    forall k :: 0 <= k < |lines| ==> tokenize("\n" + lines[k]) <= size
  }

  lemma FollowersFirst(lines: seq<string>, tokenize: Tokenizer, size: int)
    requires lines != []
    ensures FollowersWithin(lines, tokenize, size)
      <==> tokenize("\n" + lines[0]) <= size && FollowersWithin(lines[1..], tokenize, size)
  {
    assert lines == [lines[0]] + lines[1..];
  }

  predicate StepWithin(lines: seq<string>, tokenize: Tokenizer, size: int, overlap: int, open: Pack)
    requires lines != []
  {
    && (Closes(open, lines[0], tokenize, size) ==> tokenize(open.Text()) <= size)
    && WithinBudget(Packs(lines[1..], tokenize, size, overlap, After(open, lines[0], tokenize, size, overlap)),
                    tokenize, size)
  }

  /** One line: a chunk that is closed must be within the budget, and so must those to come. */
  lemma WithinStep(lines: seq<string>, tokenize: Tokenizer, size: int, overlap: int, open: Pack)
    requires lines != []
    ensures WithinBudget(Packs(lines, tokenize, size, overlap, open), tokenize, size)
      <==> StepWithin(lines, tokenize, size, overlap, open)
  {
    var closed := if Closes(open, lines[0], tokenize, size) then [open] else [];
    WithinAppend(closed, Packs(lines[1..], tokenize, size, overlap, After(open, lines[0], tokenize, size, overlap)),
                 tokenize, size);
    assert closed != [] ==> closed[0] == open;
  }

  lemma WithinEnd(tokenize: Tokenizer, size: int, overlap: int, open: Pack)
    requires open.Text() != ""
    ensures WithinBudget(Packs([], tokenize, size, overlap, open), tokenize, size) <==> tokenize(open.Text()) <= size
  {
    assert Packs([], tokenize, size, overlap, open)[0] == open;
  }

  lemma FeedsRest(lines: seq<string>)
    requires FeedLines(lines) && lines != []
    ensures FeedLines(lines[1..])
    ensures lines[1..] != [] ==> EndsLine(lines[0])
  {
  }

  /** The end of a line is the end of whatever it is appended to. */
  lemma EndsWithLine(text: string, line: string)
    requires EndsLine(line)
    ensures EndsLine(text + line)
  {
  }

  /** A line that fits behind a text that ends in a line feed fits behind the line feed. */
  lemma FitsBehindFeed(text: string, line: string, tokenize: Tokenizer, size: int)
    requires Monotone(tokenize) && EndsLine(text) && tokenize(text + line) <= size
    ensures tokenize("\n" + line) <= size && tokenize(text) <= size
  {
    assert (text + line)[|text| - 1..|text| + |line|] == "\n" + line;
    PartsWithin(text, line, tokenize, size);
  }

  /** Whether a chunk behind `open` is within the budget depends on the line feed and one line only. */
  lemma {:induction false} FeedsWithin(lines: seq<string>, tokenize: Tokenizer, size: int, overlap: int, open: Pack)
    requires Monotone(tokenize) && overlap > 0 && tokenize("\n") <= overlap && FeedLines(lines)
    requires open.Text() != "" && (lines != [] ==> EndsLine(open.Text()))
    ensures WithinBudget(Packs(lines, tokenize, size, overlap, open), tokenize, size)
      <==> tokenize(open.Text()) <= size && FollowersWithin(lines, tokenize, size)
    decreases |lines|
  {
    if lines == [] {
      WithinEnd(tokenize, size, overlap, open);
    } else {
      var line, next := lines[0], After(open, lines[0], tokenize, size, overlap);
      AfterText(open, line, tokenize, size, overlap);
      TailOfLine(open.Text(), tokenize, overlap);
      FeedsRest(lines);
      if lines[1..] != [] {
        EndsWithLine(open.Text(), line);
        EndsWithLine("\n", line);
      }
      FeedsWithin(lines[1..], tokenize, size, overlap, next);
      WithinStep(lines, tokenize, size, overlap, open);
      FollowersFirst(lines, tokenize, size);
      if !Closes(open, line, tokenize, size) {
        FitsBehindFeed(open.Text(), line, tokenize, size);
      }
    }
  }

  /** When not even a line feed fits the overlap, every chunk repeats the one before it and grows beyond the budget. */
  lemma {:induction false} WholeWithin(lines: seq<string>, tokenize: Tokenizer, size: int, overlap: int, open: Pack)
    requires Monotone(tokenize) && overlap > 0 && tokenize("\n") > overlap && FeedLines(lines)
    requires open.Text() != "" && (lines != [] ==> EndsLine(open.Text()))
    ensures WithinBudget(Packs(lines, tokenize, size, overlap, open), tokenize, size)
      <==> tokenize(open.Text() + Concat(lines)) <= size
    decreases |lines|
  {
    if lines == [] {
      WithinEnd(tokenize, size, overlap, open);
      assert open.Text() + "" == open.Text();
    } else {
      var line, next := lines[0], After(open, lines[0], tokenize, size, overlap);
      AfterText(open, line, tokenize, size, overlap);
      TailOfLine(open.Text(), tokenize, overlap);
      FeedsRest(lines);
      if lines[1..] != [] {
        EndsWithLine(open.Text(), line);
      }
      WholeWithin(lines[1..], tokenize, size, overlap, next);
      WithinStep(lines, tokenize, size, overlap, open);
      Assoc(open.Text(), line, Concat(lines[1..]));
      PartsWithin(open.Text() + line, Concat(lines[1..]), tokenize, size);
    }
  }

  /** The first line fits, and every other line does behind a line feed; or the content as a whole does. */
  predicate OverlapFits(content: string, tokenize: Tokenizer, size: int, overlap: int) {
    var lines := Lines(Split(content, "\n"));
    if lines == [] then true
    else if tokenize("\n") <= overlap then tokenize(lines[0]) <= size && FollowersWithin(lines[1..], tokenize, size)
    else tokenize(content) <= size
  }

  lemma ContentFeeds(content: string)
    requires content != ""
    ensures var lines := Lines(Split(content, "\n"));
      && lines != [] && lines[0] != "" && FeedLines(lines) && Concat(lines) == content
      && (|lines| > 1 ==> EndsLine(lines[0]))
  {
    LinesRejoin(Split(content, "\n"));
    JoinSplit(content, "\n");
  }

  /**
   * With overlap and a monotone tokenizer the budget is kept exactly when the first line fits and every other line fits
   * behind a line feed. When a line feed is too long for the overlap, it is kept exactly when the whole content fits.
   */
  lemma OverlapBudgetHoldsIff(content: string, tokenize: Tokenizer, size: int, overlap: int)
    requires Monotone(tokenize) && overlap > 0 && content != ""
    ensures WithinBudget(ContentPacks(content, tokenize, size, overlap), tokenize, size)
      <==> OverlapFits(content, tokenize, size, overlap)
  {
    var lines := Lines(Split(content, "\n"));
    var first := After(EMPTY, lines[0], tokenize, size, overlap);
    ContentFeeds(content);
    AfterText(EMPTY, lines[0], tokenize, size, overlap);
    assert "" + lines[0] == lines[0];
    WithinStep(lines, tokenize, size, overlap, EMPTY);
    FeedsRest(lines);
    if tokenize("\n") <= overlap {
      FeedsWithin(lines[1..], tokenize, size, overlap, first);
    } else {
      WholeWithin(lines[1..], tokenize, size, overlap, first);
    }
  }

  /** Two lines within the budget whose overlapping chunks are not: the line feed and the second line together. */
  lemma OverlapOverruns()
    ensures
      var tokenize: Tokenizer := (s: string) => |s|;
      && LinesWithin(TextLines("ab\ncde"), tokenize, 3)
      && !WithinBudget(ContentPacks("ab\ncde", tokenize, 3, 1), tokenize, 3)
  {
    var tokenize: Tokenizer := (s: string) => |s|;
    var parts := ["ab", "cde"];
    assert parts[1..] == ["cde"];
    assert Join(parts[1..], "\n") == "cde";
    assert Join(parts, "\n") == "ab\ncde";
    SplitJoin(parts, "\n");
    assert Lines(parts[1..]) == ["cde"];
    assert "ab" + "\n" == "ab\n";
    assert Lines(parts) == ["ab\n"] + ["cde"];
    OverlapBudgetHoldsIff("ab\ncde", tokenize, 3, 1);
    assert ["ab\n", "cde"][1..][0] == "cde";
  }

  /** The tokens of a text are at most those of its pieces, and a single symbol has at most `overlap`. */
  ghost predicate Subadditive(tokenize: Tokenizer, overlap: nat) {
    && (forall a: string, b: string :: tokenize(a + b) <= tokenize(a) + tokenize(b))
    && (forall c: char :: tokenize([c]) <= overlap)
  }

  lemma TailWithin(text: string, tokenize: Tokenizer, overlap: nat)
    requires (forall c: char :: tokenize([c]) <= overlap) && overlap > 0 && text != ""
    ensures tokenize(TailOf(text, overlap, tokenize)) <= overlap
  {
    assert text[|text| - 1..] == [text[|text| - 1]];
  }

  lemma NextWithin(open: Pack, line: string, tokenize: Tokenizer, size: int, overlap: nat)
    requires Subadditive(tokenize, overlap) && overlap > 0 && tokenize(line) <= size - overlap
    ensures tokenize(After(open, line, tokenize, size, overlap).Text()) <= size
  {
    AfterText(open, line, tokenize, size, overlap);
    if Closes(open, line, tokenize, size) {
      TailWithin(open.Text(), tokenize, overlap);
      assert tokenize(TailOf(open.Text(), overlap, tokenize) + line) <= overlap + tokenize(line);
    } else if open.Text() == "" {
      assert "" + line == line;
    }
  }

  /** With overlap, the budget is kept when every line leaves room for the overlap. */
  lemma {:induction false} RoomForOverlap(lines: seq<string>, tokenize: Tokenizer, size: int, overlap: nat, open: Pack)
    requires Subadditive(tokenize, overlap) && overlap > 0 && LinesWithin(lines, tokenize, size - overlap)
    requires open.Text() != "" ==> tokenize(open.Text()) <= size
    ensures WithinBudget(Packs(lines, tokenize, size, overlap, open), tokenize, size)
    decreases |lines|
  {
    if lines != [] {
      var next := After(open, lines[0], tokenize, size, overlap);
      NextWithin(open, lines[0], tokenize, size, overlap);
      RoomForOverlap(lines[1..], tokenize, size, overlap, next);
    }
  }
}
