/** Which lines are headings. */
module MdFences {
  // The headings of a document, told from its lines alone: code fences hide them, and outside of fences a heading is a
  // configured header that stands alone or before a space.

  import opened Wrappers
  import opened Text
  import opened MdHeaders
  import opened HeaderScope
  import opened HeaderSections

  // ---------- fences ----------

  /** A line that opens a fence: three backticks that occur only once in it, or three tildes. */
  predicate Opens(line: string, fence: string) {
    var t := TrimSpace(line);
    (fence == "```" && HasPrefix(t, "```") && |Split(t, "```")| == 2) || (fence == "~~~" && HasPrefix(t, "~~~"))
  }

  predicate OpensNone(line: string) {
    !Opens(line, "```") && !Opens(line, "~~~")
  }

  predicate StartsWith(line: string, fence: string) {
    HasPrefix(TrimSpace(line), fence)
  }

  /** No line from `a` to `b - 1` opens a fence. */
  predicate NoneOpens(lines: seq<string>, a: nat, b: nat)
    requires a <= b <= |lines|
  {
    forall i {:trigger OpensNone(lines[i])} :: a <= i < b ==> OpensNone(lines[i])
  }

  /** No line from `a` to `b - 1` closes the fence. */
  predicate NoneCloses(lines: seq<string>, a: nat, b: nat, fence: string)
    requires a <= b <= |lines|
  {
    forall i {:trigger StartsWith(lines[i], fence)} :: a <= i < b ==> !StartsWith(lines[i], fence)
  }

  /** A line that is this header, alone or followed by a space. */
  predicate IsHeadingLine(m: MdSplitter, line: string, header: string) {
    line != "" && header in m.headers && (TrimSpace(line) == header || HasPrefix(TrimSpace(line), header + " "))
  }

  function Opened(line: string): Option<string> {
    if Opens(line, "```") then Some("```") else if Opens(line, "~~~") then Some("~~~") else None
  }

  lemma OpeningIs(line: string)
    ensures NextFence(None, TrimSpace(line)) == Opened(line)
  {
  }

  lemma EmptyLine(fence: string)
    requires fence != ""
    ensures OpensNone("") && !StartsWith("", fence)
  {
    assert TrimSpace("") == "";
  }

  /** What one more line does outside of fences, and inside of one. */
  lemma FenceStep(lines: seq<string>, i: nat)
    requires i < |lines|
    ensures FenceAt(lines, i) == None ==> FenceAt(lines, i + 1) == Opened(lines[i])
    ensures FenceAt(lines, i).Some? && FenceAt(lines, i).value != "" ==>
      FenceAt(lines, i + 1) == if StartsWith(lines[i], FenceAt(lines, i).value) then None else FenceAt(lines, i)
  {
    if lines[i] == "" {
      EmptyLine("~~~");
      if FenceAt(lines, i).Some? && FenceAt(lines, i).value != "" {
        EmptyLine(FenceAt(lines, i).value);
      }
    } else {
      OpeningIs(lines[i]);
    }
  }

  lemma {:induction false} StillUnfenced(lines: seq<string>, from: nat, i: nat)
    requires from <= i <= |lines| && FenceAt(lines, from) == None && NoneOpens(lines, from, i)
    ensures FenceAt(lines, i) == None
  {
    if from < i {
      StillUnfenced(lines, from, i - 1);
      FenceStep(lines, i - 1);
      assert OpensNone(lines[i - 1]);
    }
  }

  /** Behind the line that opens it a fence stays open while no line closes it. */
  lemma {:induction false} StillFenced(lines: seq<string>, o: nat, fence: string, i: nat)
    requires o < i <= |lines| && FenceAt(lines, o) == None
    requires Opens(lines[o], fence) && NoneCloses(lines, o + 1, i, fence)
    ensures FenceAt(lines, i) == Some(fence)
  {
    FenceStep(lines, i - 1);
    if i == o + 1 {
      OneFence(lines[o], fence);
    } else {
      StillFenced(lines, o, fence, i - 1);
      assert !StartsWith(lines[i - 1], fence);
    }
  }

  lemma OneFence(line: string, fence: string)
    requires Opens(line, fence)
    ensures fence == if Opens(line, "```") then "```" else "~~~"
    ensures fence == "~~~" ==> Opens(line, "~~~")
  {
    if fence == "~~~" {
      assert TrimSpace(line)[0] == '~';
    }
  }

  lemma Reopened(lines: seq<string>, o: nat, fence: string, c: nat)
    requires o < c < |lines| && FenceAt(lines, o) == None
    requires Opens(lines[o], fence) && NoneCloses(lines, o + 1, c, fence) && StartsWith(lines[c], fence)
    ensures FenceAt(lines, c + 1) == None
  {
    StillFenced(lines, o, fence, c);
    FenceStep(lines, c);
  }

  // ---------- lines outside of fences ----------

  lemma MatchIs(trimmed: string, header: string)
    ensures Matches(trimmed, header) <==> trimmed == header || HasPrefix(trimmed, header + " ")
  {
    if HasPrefix(trimmed, header) && |trimmed| > |header| && trimmed[|header|] == ' ' {
      assert trimmed[..|header| + 1] == header + " ";
    }
    if HasPrefix(trimmed, header + " ") {
      assert (header + " ")[|header|] == ' ';
    }
  }

  /** Outside of fences exactly these lines are headings. */
  lemma OutsideIff(m: MdSplitter, lines: seq<string>, i: nat, header: string)
    requires m.Valid() && i < |lines| && FenceAt(lines, i + 1) == None
    ensures m.Heading(lines, i) == Some(header) <==> IsHeadingLine(m, lines[i], header)
  {
    var t := TrimSpace(lines[i]);
    TrimSpaceKeeps(lines[i]);
    MatchIs(t, header);
    if header in m.headers {
      MatchIsUnique(t, header);
    }
  }

  /** Before any fence a line is a heading exactly when it is a configured header, alone or followed by a space. */
  lemma PlainHeadingIff(m: MdSplitter, lines: seq<string>, i: nat, header: string)
    requires m.Valid() && i < |lines| && NoneOpens(lines, 0, i + 1)
    ensures m.Heading(lines, i) == Some(header) <==> IsHeadingLine(m, lines[i], header)
  {
    StillUnfenced(lines, 0, i + 1);
    OutsideIff(m, lines, i, header);
  }

  // ---------- the law of fences ----------

  /** A fence and the next line that starts with it, or the number of lines when there is none. */
  predicate IsFence(lines: seq<string>, o: nat, fence: string, c: nat) {
    && o < c <= |lines| && Opens(lines[o], fence)
    && NoneCloses(lines, o + 1, c, fence) && (c < |lines| ==> StartsWith(lines[c], fence))
  }

  lemma FenceLineIsNoHeading(m: MdSplitter, line: string, fence: string, header: string)
    requires fence == "```" || fence == "~~~"
    requires StartsWith(line, fence) && AllHashes(header)
    ensures !IsHeadingLine(m, line, header)
  {
    assert TrimSpace(line)[0] == fence[0];
    assert header != "" ==> header[0] == '#';
    assert (header + " ")[0] == '#' || (header + " ")[0] == ' ';
  }

  lemma InsideIsNoHeading(m: MdSplitter, lines: seq<string>, o: nat, fence: string, i: nat)
    requires m.Valid() && o <= i < |lines| && FenceAt(lines, o) == None && Opens(lines[o], fence)
    requires NoneCloses(lines, o + 1, i + 1, fence)
    ensures m.Heading(lines, i).None?
  {
    StillFenced(lines, o, fence, i + 1);
  }

  lemma CloserIsNoHeading(m: MdSplitter, lines: seq<string>, o: nat, fence: string, c: nat)
    requires m.Valid() && o < c < |lines| && FenceAt(lines, o) == None && Opens(lines[o], fence)
    requires NoneCloses(lines, o + 1, c, fence) && StartsWith(lines[c], fence)
    ensures m.Heading(lines, c).None?
  {
    Reopened(lines, o, fence, c);
    if m.Heading(lines, c).Some? {
      FenceLineIsNoHeading(m, lines[c], fence, m.Heading(lines, c).value);
      OutsideIff(m, lines, c, m.Heading(lines, c).value);
    }
  }

  lemma HiddenAt(m: MdSplitter, lines: seq<string>, o: nat, fence: string, c: nat, i: nat)
    requires m.Valid() && IsFence(lines, o, fence, c) && FenceAt(lines, o) == None && o <= i <= c && i < |lines|
    ensures m.Heading(lines, i).None?
  {
    if i == c {
      CloserIsNoHeading(m, lines, o, fence, c);
    } else {
      InsideIsNoHeading(m, lines, o, fence, i);
    }
  }

  /** `rest` are the lines from line `n` on. */
  predicate IsRest(lines: seq<string>, n: nat, rest: seq<string>) {
    n + |rest| == |lines| && forall j {:trigger rest[j]} :: 0 <= j < |rest| ==> rest[j] == lines[n + j]
  }

  /** Behind a line that is outside of fences the rest of the document is a document of its own. */
  lemma {:induction false} FenceRestarts(lines: seq<string>, n: nat, i: nat, rest: seq<string>, j: nat)
    requires IsRest(lines, n, rest) && i == n + j <= |lines| && FenceAt(lines, n) == None
    ensures FenceAt(lines, i) == FenceAt(rest, j)
  {
    if j > 0 {
      FenceRestarts(lines, n, i - 1, rest, j - 1);
      assert rest[j - 1] == lines[i - 1];
    }
  }

  lemma SameHeading(m: MdSplitter, a: seq<string>, i: nat, b: seq<string>, j: nat)
    requires i < |a| && j < |b| && a[i] == b[j] && FenceAt(a, i + 1) == FenceAt(b, j + 1)
    ensures m.Heading(a, i) == m.Heading(b, j)
  {
  }

  lemma HeadingRestarts(m: MdSplitter, lines: seq<string>, n: nat, i: nat, rest: seq<string>, j: nat)
    requires IsRest(lines, n, rest) && i == n + j < |lines| && FenceAt(lines, n) == None
    ensures m.Heading(lines, i) == m.Heading(rest, j)
  {
    FenceRestarts(lines, n, i + 1, rest, j + 1);
    assert rest[j] == lines[i];
    SameHeading(m, lines, i, rest, j);
  }

  /**
   * The first line that opens a fence hides every heading up to the next line that starts with the same fence, that
   * line included; behind it the document starts anew. When no such line follows, nothing behind it is a heading.
   */
  lemma FenceHides(m: MdSplitter, lines: seq<string>, o: nat, fence: string, c: nat)
    requires m.Valid() && o < |lines| && NoneOpens(lines, 0, o) && IsFence(lines, o, fence, c)
    ensures forall i :: o <= i <= c && i < |lines| ==> m.Heading(lines, i).None?
    ensures forall i {:trigger m.Heading(lines, i)} :: c < i < |lines| ==>
      m.Heading(lines, i) == m.Heading(lines[c + 1..], i - c - 1)
  {
    StillUnfenced(lines, 0, o);
    forall i | o <= i <= c && i < |lines| ensures m.Heading(lines, i).None? {
      HiddenAt(m, lines, o, fence, c, i);
    }
    if c < |lines| {
      Reopened(lines, o, fence, c);
      forall i {:trigger m.Heading(lines, i)} | c < i < |lines|
        ensures m.Heading(lines, i) == m.Heading(lines[c + 1..], i - c - 1)
      {
        HeadingRestarts(m, lines, c + 1, i, lines[c + 1..], i - c - 1);
      }
    }
  }

  // ---------- every line of every document ----------

  /** What a line can do to a fence: open one, or close one of either kind. */
  datatype Mark = Mark(opens: Option<string>, ticks: bool, tildes: bool) {
    predicate Closes(fence: string) {
      if fence == "```" then ticks else tildes
    }
  }

  function Marks(lines: seq<string>): (marks: seq<Mark>)
    ensures |marks| == |lines|
    ensures forall k :: 0 <= k < |lines| ==>
      marks[k] == Mark(Opened(lines[k]), StartsWith(lines[k], "```"), StartsWith(lines[k], "~~~"))
  {
    seq(|lines|, k requires 0 <= k < |lines| =>
      Mark(Opened(lines[k]), StartsWith(lines[k], "```"), StartsWith(lines[k], "~~~")))
  }

  function NextOpening(marks: seq<Mark>, from: nat): (o: nat)
    requires from <= |marks|
    ensures from <= o <= |marks| && (forall k :: from <= k < o ==> marks[k].opens == None)
    ensures o < |marks| ==> marks[o].opens.Some?
    decreases |marks| - from
  {
    if from == |marks| || marks[from].opens.Some? then from else NextOpening(marks, from + 1)
  }

  function NextClosing(marks: seq<Mark>, from: nat, fence: string): (c: nat)
    requires from <= |marks|
    ensures from <= c <= |marks| && (forall k :: from <= k < c ==> !marks[k].Closes(fence))
    ensures c < |marks| ==> marks[c].Closes(fence)
    decreases |marks| - from
  {
    if from == |marks| || marks[from].Closes(fence) then from else NextClosing(marks, from + 1, fence)
  }

  /**
   * Line `i` is outside of the fences that open from line `from` on: it stands before the next opening line, or
   * behind the line that closes the fence opened there and outside of all later ones.
   */
  predicate Unfenced(marks: seq<Mark>, from: nat, i: nat)
    requires from <= i < |marks|
    decreases |marks| - from
  {
    var o := NextOpening(marks, from);
    i < o || (var c := NextClosing(marks, o + 1, marks[o].opens.value); c < i && Unfenced(marks, c + 1, i))
  }

  /** The fence that is open before line `i`. */
  function OpenFence(marks: seq<Mark>, i: nat): Option<string>
    requires i <= |marks|
  {
    if i == 0 then None
    else
      match OpenFence(marks, i - 1)
      case None => marks[i - 1].opens
      case Some(fence) => if marks[i - 1].Closes(fence) then None else Some(fence)
  }

  lemma {:induction false} OpenFenceIs(lines: seq<string>, i: nat)
    requires i <= |lines|
    ensures FenceAt(lines, i) == OpenFence(Marks(lines), i)
    ensures FenceAt(lines, i) in {None, Some("```"), Some("~~~")}
  {
    if i > 0 {
      OpenFenceIs(lines, i - 1);
      FenceStep(lines, i - 1);
    }
  }

  lemma {:induction false} NoneOpened(marks: seq<Mark>, from: nat, i: nat)
    requires from <= i <= |marks| && OpenFence(marks, from) == None
    requires forall k :: from <= k < i ==> marks[k].opens == None
    ensures OpenFence(marks, i) == None
  {
    if from < i {
      NoneOpened(marks, from, i - 1);
    }
  }

  lemma {:induction false} NoneClosed(marks: seq<Mark>, o: nat, i: nat)
    requires o < i <= |marks| && OpenFence(marks, o) == None && marks[o].opens.Some?
    requires forall k :: o < k < i ==> !marks[k].Closes(marks[o].opens.value)
    ensures OpenFence(marks, i) == marks[o].opens
  {
    if o + 1 < i {
      NoneClosed(marks, o, i - 1);
    }
  }

  /** Outside of fences from line `from` on. */
  lemma {:induction false} UnfencedIff(marks: seq<Mark>, from: nat, i: nat)
    requires from <= i < |marks| && OpenFence(marks, from) == None
    ensures Unfenced(marks, from, i) <==> OpenFence(marks, i) == None && marks[i].opens == None
    decreases |marks| - from
  {
    var o := NextOpening(marks, from);
    if i < o {
      NoneOpened(marks, from, i);
    } else {
      NoneOpened(marks, from, o);
      var c := NextClosing(marks, o + 1, marks[o].opens.value);
      if i <= c {
        if o < i {
          NoneClosed(marks, o, i);
        }
      } else {
        NoneClosed(marks, o, c);
        UnfencedIff(marks, c + 1, i);
      }
    }
  }

  lemma OutsideMeans(lines: seq<string>, i: nat)
    requires i < |lines|
    ensures Unfenced(Marks(lines), 0, i) ==> FenceAt(lines, i + 1) == None
    ensures !Unfenced(Marks(lines), 0, i) && FenceAt(lines, i + 1) == None ==>
      StartsWith(lines[i], "```") || StartsWith(lines[i], "~~~")
  {
    UnfencedIff(Marks(lines), 0, i);
    OpenFenceIs(lines, i);
    OpenFenceIs(lines, i + 1);
  }

  /** Every line of every document: a heading is an unfenced line that is a configured header, alone or with a space. */
  lemma HeadingIff(m: MdSplitter, lines: seq<string>, i: nat, header: string)
    requires m.Valid() && i < |lines|
    ensures m.Heading(lines, i) == Some(header) <==> Unfenced(Marks(lines), 0, i) && IsHeadingLine(m, lines[i], header)
  {
    OutsideMeans(lines, i);
    if FenceAt(lines, i + 1) == None {
      OutsideIff(m, lines, i, header);
      if !Unfenced(Marks(lines), 0, i) && header in m.headers {
        FenceLineIsNoHeading(m, lines[i], if StartsWith(lines[i], "```") then "```" else "~~~", header);
      }
    }
  }

  // ---------- what a chunk's metadata says ----------

  /** Line `i` is a heading for this name and data, and up to line `e` only deeper headings follow. */
  ghost predicate SaysAt(m: MdSplitter, lines: seq<string>, i: nat, e: nat, name: string, data: string)
    requires e <= |lines|
  {
    exists header ::
      && i < e && header in m.headers && m.headers[header] == name && m.Heading(lines, i) == Some(header)
      && TrimSpace(TrimSpace(lines[i])[|header|..]) == data
      && forall j :: i < j < e && m.Heading(lines, j).Some? ==> |header| < |m.Heading(lines, j).value|
  }

  lemma SaysIs(m: MdSplitter, lines: seq<string>, i: nat, e: nat, name: string, data: string)
    requires m.Valid() && e <= |lines|
    ensures SaysAt(m, lines, i, e, name, data)
      <==> InScope(m, lines, i, e) && m.Name(lines, i) == name && m.Data(lines, i) == data
  {
    if InScope(m, lines, i, e) {
      var header := m.Heading(lines, i).value;
      assert header in m.headers && |header| <= |TrimSpace(lines[i])|;
    }
  }

  /**
   * With different names for different headers a chunk's metadata holds exactly the data of the headings above its end
   * that no later heading of the same or a higher level closes.
   */
  lemma ChunkSays(m: MdSplitter, text: string, k: nat, name: string, data: string)
    requires m.Valid() && DistinctNames(m) && k < |m.Result(text)|
    ensures
      var lines, metadata := Split(text, "\n"), m.Result(text)[k].metadata;
      var e := m.Sections(lines)[k].end;
      (name in metadata && metadata[name] == data) <==> exists i :: SaysAt(m, lines, i, e, name, data)
  {
    var lines := Split(text, "\n");
    var e := m.Sections(lines)[k].end;
    ChunkMetadata(m, text, k);
    forall i: nat ensures SaysAt(m, lines, i, e, name, data)
      <==> InScope(m, lines, i, e) && m.Name(lines, i) == name && m.Data(lines, i) == data
    {
      SaysIs(m, lines, i, e, name, data);
    }
    assert (exists i :: SaysAt(m, lines, i, e, name, data)) <==> ScopeSays(m, lines, e, name, data);
  }
}
