/** How a header split cuts. */
module HeaderSections {
  import opened Wrappers
  import opened Text
  import opened MdHeaders
  import opened HeaderScope

  /** The lines of the sections, section by section. */
  function Bodies(m: MdSplitter, lines: seq<string>, sections: seq<Section>): (r: seq<seq<string>>)
    requires m.AreSections(lines, sections)
    ensures |r| == |sections|
  {
    seq(|sections|, k requires 0 <= k < |sections| => m.Body(lines, sections[k].start, sections[k].end))
  }

  function JoinEach(groups: seq<seq<string>>, sep: string): (r: seq<string>)
    ensures |r| == |groups|
  {
    seq(|groups|, k requires 0 <= k < |groups| => Join(groups[k], sep))
  }

  lemma {:induction false} JoinConcat(a: seq<string>, b: seq<string>, sep: string)
    requires a != [] && b != []
    ensures Join(a + b, sep) == Join(a, sep) + sep + Join(b, sep)
  {
    assert (a + b)[1..] == a[1..] + b;
    if |a| > 1 {
      JoinConcat(a[1..], b, sep);
      Assoc(a[0] + sep, Join(a[1..], sep) + sep, Join(b, sep));
      Assoc(a[0] + sep, Join(a[1..], sep), sep);
    } else {
      assert a[1..] + b == b;
    }
  }

  /** Joining the joined groups joins all their members. */
  lemma {:induction false} JoinGroups(groups: seq<seq<string>>, sep: string)
    requires forall k :: 0 <= k < |groups| ==> groups[k] != []
    ensures Join(JoinEach(groups, sep), sep) == Join(Flatten(groups), sep)
  {
    if groups == [] {
    } else if |groups| == 1 {
      assert Flatten(groups) == groups[0] + Flatten(groups[1..]) == groups[0];
    } else {
      JoinGroups(groups[1..], sep);
      assert JoinEach(groups, sep)[1..] == JoinEach(groups[1..], sep);
      assert Flatten(groups[1..]) == groups[1] + Flatten(groups[1..][1..]);
      JoinConcat(groups[0], Flatten(groups[1..]), sep);
    }
  }

  // ---------- the cuts ----------

  /** Only the first line of a section can be a heading, and every section but the first starts with one. */
  predicate HeadingsLead(m: MdSplitter, lines: seq<string>, start: nat, end: nat)
    requires start <= end <= |lines|
  {
    && (0 < start < |lines| ==> m.Heading(lines, start).Some?)
    && forall j :: start < j < end ==> m.Heading(lines, j).None?
  }

  lemma CutsStep(m: MdSplitter, lines: seq<string>, i: nat)
    requires 0 < i <= |lines|
    ensures m.Heading(lines, i - 1).None? ==> m.Cuts(lines, i) == m.Cuts(lines, i - 1)
    ensures m.Heading(lines, i - 1).Some? ==>
      m.Cuts(lines, i) == (m.Close(lines, m.Cuts(lines, i - 1).0, m.Cuts(lines, i - 1).1, i - 1), i - 1)
  {
  }

  lemma {:induction false} OpenSectionStart(m: MdSplitter, lines: seq<string>, i: nat)
    requires i <= |lines|
    ensures i > 0 ==> m.Cuts(lines, i).1 < i
    ensures 0 < m.Cuts(lines, i).1 < |lines| ==> m.Heading(lines, m.Cuts(lines, i).1).Some?
  {
    if i > 0 {
      CutsStep(m, lines, i);
      if m.Heading(lines, i - 1).None? {
        OpenSectionStart(m, lines, i - 1);
      }
    }
  }

  lemma {:induction false} NoHeadingSince(m: MdSplitter, lines: seq<string>, i: nat, j: nat)
    requires i <= |lines| && m.Cuts(lines, i).1 < j < i
    ensures m.Heading(lines, j).None?
  {
    CutsStep(m, lines, i);
    if j < i - 1 {
      NoHeadingSince(m, lines, i - 1, j);
    }
  }

  lemma OpenSectionLeads(m: MdSplitter, lines: seq<string>, i: nat)
    requires i <= |lines|
    ensures HeadingsLead(m, lines, m.Cuts(lines, i).1, i)
    ensures i > 0 ==> m.Cuts(lines, i).1 < i
  {
    OpenSectionStart(m, lines, i);
    forall j | m.Cuts(lines, i).1 < j < i ensures m.Heading(lines, j).None? {
      NoHeadingSince(m, lines, i, j);
    }
  }

  /** A section that a heading closed. */
  predicate IsClosed(m: MdSplitter, lines: seq<string>, s: Section) {
    s.start < s.end < |lines| && HeadingsLead(m, lines, s.start, s.end) && m.Heading(lines, s.end).Some?
  }

  predicate AllClosed(m: MdSplitter, lines: seq<string>, sections: seq<Section>) {
    forall k :: 0 <= k < |sections| ==> IsClosed(m, lines, sections[k])
  }

  lemma CloseKeeps(m: MdSplitter, lines: seq<string>, closed: seq<Section>, start: nat, end: nat)
    requires start <= end < |lines| && m.AreSections(lines, closed) && AllClosed(m, lines, closed)
    requires HeadingsLead(m, lines, start, end) && m.Heading(lines, end).Some?
    ensures AllClosed(m, lines, m.Close(lines, closed, start, end))
  {
    if start < end {
      assert IsClosed(m, lines, Section(start, end));
    }
  }

  lemma {:induction false} CutsAreClosed(m: MdSplitter, lines: seq<string>, i: nat)
    requires i <= |lines|
    ensures AllClosed(m, lines, m.Cuts(lines, i).0)
  {
    if i > 0 {
      CutsAreClosed(m, lines, i - 1);
      CutsStep(m, lines, i);
      if m.Heading(lines, i - 1).Some? {
        OpenSectionLeads(m, lines, i - 1);
        CloseKeeps(m, lines, m.Cuts(lines, i - 1).0, m.Cuts(lines, i - 1).1, i - 1);
      }
    }
  }

  /** In every chunk, trimmed or not, only the first line of its section can be an unfenced heading. */
  lemma SectionsLead(m: MdSplitter, lines: seq<string>, s: Section)
    requires s in m.Sections(lines)
    ensures s.start < s.end <= |lines| && HeadingsLead(m, lines, s.start, s.end)
    ensures s.end == |lines| || m.Heading(lines, s.end).Some?
  {
    var (closed, start) := m.Cuts(lines, |lines|);
    OpenSectionLeads(m, lines, |lines|);
    CutsAreClosed(m, lines, |lines|);
    var k :| 0 <= k < |m.Sections(lines)| && m.Sections(lines)[k] == s;
    if k < |closed| {
      assert s == closed[k] && IsClosed(m, lines, closed[k]);
    } else {
      assert s == Section(start, |lines|);
    }
  }

  /** The sections follow each other without a gap. */
  predicate Consecutive(sections: seq<Section>, from: nat, to: nat) {
    if sections == [] then from == to
    else sections[0].start == from && from < sections[0].end && Consecutive(sections[1..], sections[0].end, to)
  }

  lemma {:induction false} ConsecutiveAppend(sections: seq<Section>, last: Section, from: nat, mid: nat)
    requires Consecutive(sections, from, mid) && last.start == mid < last.end
    ensures Consecutive(sections + [last], from, last.end)
  {
    if sections == [] {
      assert sections + [last] == [last];
    } else {
      ConsecutiveAppend(sections[1..], last, sections[0].end, mid);
      assert (sections + [last])[1..] == sections[1..] + [last];
    }
  }

  lemma {:induction false} CutsConsecutive(m: MdSplitter, lines: seq<string>, i: nat)
    requires i <= |lines| && !m.trimHeaders
    ensures Consecutive(m.Cuts(lines, i).0, 0, m.Cuts(lines, i).1)
    ensures i > 0 ==> m.Cuts(lines, i).1 < i
  {
    if i > 0 {
      CutsConsecutive(m, lines, i - 1);
      var (closed, start) := m.Cuts(lines, i - 1);
      if m.Heading(lines, i - 1).Some? && start < i - 1 {
        ConsecutiveAppend(closed, Section(start, i - 1), 0, start);
        assert m.Body(lines, start, i - 1) != [];
      }
    }
  }

  /** Without trimming, the sections cover every line exactly once, in order. */
  lemma SectionsConsecutive(m: MdSplitter, lines: seq<string>)
    requires !m.trimHeaders && lines != []
    ensures Consecutive(m.Sections(lines), 0, |lines|)
  {
    CutsConsecutive(m, lines, |lines|);
    var (closed, start) := m.Cuts(lines, |lines|);
    ConsecutiveAppend(closed, Section(start, |lines|), 0, start);
    assert m.Body(lines, start, |lines|) != [];
  }

  lemma {:induction false} BodiesFlatten(m: MdSplitter, lines: seq<string>, sections: seq<Section>, from: nat, to: nat)
    requires !m.trimHeaders && m.AreSections(lines, sections) && Consecutive(sections, from, to)
    requires from <= to <= |lines|
    ensures Flatten(Bodies(m, lines, sections)) == lines[from..to]
    ensures forall k :: 0 <= k < |sections| ==> Bodies(m, lines, sections)[k] != []
    decreases |sections|
  {
    if sections != [] {
      var mid := sections[0].end;
      ConsecutiveOrder(sections[1..], mid, to);
      BodiesFlatten(m, lines, sections[1..], mid, to);
      assert Bodies(m, lines, sections)[1..] == Bodies(m, lines, sections[1..]);
      assert lines[from..to] == lines[from..mid] + lines[mid..to];
      forall k | 0 < k < |sections| ensures Bodies(m, lines, sections)[k] != [] {
        assert Bodies(m, lines, sections)[k] == Bodies(m, lines, sections[1..])[k - 1];
      }
    }
  }

  lemma {:induction false} ConsecutiveOrder(sections: seq<Section>, from: nat, to: nat)
    requires Consecutive(sections, from, to)
    ensures from <= to
  {
    if sections != [] {
      ConsecutiveOrder(sections[1..], sections[0].end, to);
    }
  }

  function Contents(chunks: seq<MdSplitterChunk>): (r: seq<string>)
    ensures |r| == |chunks|
  {
    seq(|chunks|, k requires 0 <= k < |chunks| => chunks[k].content)
  }

  /** Without trimming, joining the chunks with line feeds gives the text back. */
  lemma SplitIsLossless(m: MdSplitter, text: string)
    requires !m.trimHeaders
    ensures Join(Contents(m.Result(text)), "\n") == text
  {
    var lines := Split(text, "\n");
    var sections := m.Sections(lines);
    SectionsConsecutive(m, lines);
    BodiesFlatten(m, lines, sections, 0, |lines|);
    assert lines[0..|lines|] == lines;
    JoinGroups(Bodies(m, lines, sections), "\n");
    assert Contents(m.Result(text)) == JoinEach(Bodies(m, lines, sections), "\n");
    JoinSplit(text, "\n");
  }

  // ---------- which lines the chunks hold ----------

  /** The lines before line `n` that are kept: all, or with header trimming all but the headings. */
  function LinesKept(m: MdSplitter, lines: seq<string>, n: nat): seq<string>
    requires n <= |lines|
  {
    if n == 0 then []
    else LinesKept(m, lines, n - 1) + if m.trimHeaders && m.Heading(lines, n - 1).Some? then [] else [lines[n - 1]]
  }

  lemma {:induction false} FlattenOneMore(groups: seq<seq<string>>, last: seq<string>)
    ensures Flatten(groups + [last]) == Flatten(groups) + last
  {
    if groups == [] {
      assert [] + [last] == [last] && Flatten([last]) == last + Flatten([last][1..]);
    } else {
      assert (groups + [last])[1..] == groups[1..] + [last];
      FlattenOneMore(groups[1..], last);
      Assoc(groups[0], Flatten(groups[1..]), last);
    }
  }

  lemma CloseBodies(m: MdSplitter, lines: seq<string>, closed: seq<Section>, start: nat, end: nat)
    requires start <= end <= |lines| && m.AreSections(lines, closed)
    ensures Flatten(Bodies(m, lines, m.Close(lines, closed, start, end)))
      == Flatten(Bodies(m, lines, closed)) + m.Body(lines, start, end)
  {
    var body := m.Body(lines, start, end);
    if body != [] {
      assert Bodies(m, lines, closed + [Section(start, end)]) == Bodies(m, lines, closed) + [body];
      FlattenOneMore(Bodies(m, lines, closed), body);
    }
  }

  /** The lines of the closed sections and of the open one before line `i`. */
  function LinesSoFar(m: MdSplitter, lines: seq<string>, i: nat): seq<string>
    requires i <= |lines|
  {
    Flatten(Bodies(m, lines, m.Cuts(lines, i).0)) + m.Body(lines, m.Cuts(lines, i).1, i)
  }

  lemma PlainLineKept(m: MdSplitter, lines: seq<string>, i: nat)
    requires i < |lines| && m.Heading(lines, i).None?
    ensures LinesSoFar(m, lines, i + 1) == LinesSoFar(m, lines, i) + [lines[i]]
  {
    CutsStep(m, lines, i + 1);
    m.BodyGrows(lines, m.Cuts(lines, i).1, i);
    Assoc(Flatten(Bodies(m, lines, m.Cuts(lines, i).0)), m.Body(lines, m.Cuts(lines, i).1, i), [lines[i]]);
  }

  lemma HeadingLineKept(m: MdSplitter, lines: seq<string>, i: nat)
    requires i < |lines| && m.Heading(lines, i).Some?
    ensures LinesSoFar(m, lines, i + 1) == LinesSoFar(m, lines, i) + if m.trimHeaders then [] else [lines[i]]
  {
    CutsStep(m, lines, i + 1);
    m.BodyStarts(lines, i);
    CloseBodies(m, lines, m.Cuts(lines, i).0, m.Cuts(lines, i).1, i);
  }

  lemma NoLinesYet(m: MdSplitter, lines: seq<string>)
    ensures LinesSoFar(m, lines, 0) == []
  {
  }

  ghost predicate KeptSoFar(m: MdSplitter, lines: seq<string>, i: nat)
    requires i <= |lines|
  {
    LinesSoFar(m, lines, i) == LinesKept(m, lines, i)
  }

  lemma LineKept(m: MdSplitter, lines: seq<string>, i: nat)
    requires i < |lines| && KeptSoFar(m, lines, i)
    ensures KeptSoFar(m, lines, i + 1)
  {
    if m.Heading(lines, i).Some? {
      HeadingLineKept(m, lines, i);
    } else {
      PlainLineKept(m, lines, i);
    }
  }

  lemma AllLinesKept(m: MdSplitter, lines: seq<string>)
    ensures KeptSoFar(m, lines, |lines|)
  {
    NoLinesYet(m, lines);
    for i := 0 to |lines|
      invariant KeptSoFar(m, lines, i)
    {
      LineKept(m, lines, i);
    }
  }

  /** The chunks hold, in order, every line, or with header trimming every line but the headings. */
  lemma ChunksHoldLines(m: MdSplitter, lines: seq<string>)
    ensures Flatten(Bodies(m, lines, m.Sections(lines))) == LinesKept(m, lines, |lines|)
  {
    AllLinesKept(m, lines);
    CloseBodies(m, lines, m.Cuts(lines, |lines|).0, m.Cuts(lines, |lines|).1, |lines|);
  }

  /** The content of chunk `k`: the lines of its section, with header trimming without the heading that leads it. */
  lemma ChunkContent(m: MdSplitter, text: string, k: nat)
    requires k < |m.Result(text)|
    ensures
      var lines := Split(text, "\n");
      var s := m.Sections(lines)[k];
      && s.start <= s.end <= |lines| && |Bodies(m, lines, m.Sections(lines))| == |m.Result(text)|
      && m.Result(text)[k].content == Join(Bodies(m, lines, m.Sections(lines))[k], "\n")
      && Bodies(m, lines, m.Sections(lines))[k] ==
        if m.trimHeaders && s.start < s.end && m.Heading(lines, s.start).Some? then lines[s.start + 1..s.end]
        else lines[s.start..s.end]
  {
  }

  /** Chunk `k` of a text carries exactly the headings in scope at the end of its section. */
  lemma ChunkMetadata(m: MdSplitter, text: string, k: nat)
    requires DistinctNames(m) && k < |m.Result(text)|
    ensures
      var lines := Split(text, "\n");
      var sections := m.Sections(lines);
      && k < |sections| && sections[k].end <= |lines|
      && m.Result(text)[k].content == Join(m.Body(lines, sections[k].start, sections[k].end), "\n")
      && m.Result(text)[k].metadata == m.Meta(lines, sections[k].end)
      && MetaIsScope(m, lines, sections[k].end)
  {
    var lines := Split(text, "\n");
    MetadataIsScope(m, lines, m.Sections(lines)[k].end);
  }

  // ---------- names must be distinct ----------

  /** A line that is a heading with this header and these data. */
  function HeadingText(header: string, data: string): string {
    if header == "" then " " else header + " " + data
  }

  lemma HeadingTextTrims(header: string, c: char)
    requires AllHashes(header) && !IsSpace(c) && c != '#'
    ensures
      var t := HeadingText(header, [c]);
      && t != "" && TrimSpace(t) == (if header == "" then "" else t)
      && HashRun(TrimSpace(t)) == header && Matches(TrimSpace(t), header)
      && NextFence(None, TrimSpace(t)) == None
      && TrimSpace(TrimSpace(t)[|header|..]) == if header == "" then "" else [c]
  {
    var t := HeadingText(header, [c]);
    if header == "" {
      assert TrimLeft(" ") == TrimLeft(" "[1..]) == "";
    } else {
      assert t[0] == '#';
      TrimmedIsFixed(t);
      MatchIsUnique(t, header);
      var rest := t[|header|..];
      assert rest == [' ', c] && rest[1..] == [c];
      TrimmedIsFixed([c]);
    }
  }

  /** Two headings and a plain line. */
  function Witness(a: string, b: string): seq<string> {
    [HeadingText(a, "x"), HeadingText(b, "y"), "z"]
  }

  lemma PlainText(m: MdSplitter)
    requires m.Valid()
    ensures TrimSpace("z") == "z" && HashRun("z") == "" && !Matches("z", "") && NextFence(None, "z") == None
  {
    TrimmedIsFixed("z");
  }

  lemma StaysUnfenced(lines: seq<string>, i: nat)
    requires i < |lines| && FenceAt(lines, i) == None && NextFence(None, TrimSpace(lines[i])) == None
    ensures FenceAt(lines, i + 1) == None
  {
  }

  lemma WitnessHeading(m: MdSplitter, lines: seq<string>, i: nat, header: string, c: char)
    requires m.Valid() && header in m.headers && !IsSpace(c) && c != '#'
    requires i < |lines| && lines[i] == HeadingText(header, [c]) && FenceAt(lines, i) == None
    ensures FenceAt(lines, i + 1) == None && m.Heading(lines, i) == Some(header)
    ensures m.Data(lines, i) == if header == "" then "" else [c]
  {
    HeadingTextTrims(header, c);
    StaysUnfenced(lines, i);
  }

  lemma WitnessLines(m: MdSplitter, a: string, b: string)
    requires m.Valid() && a in m.headers && b in m.headers
    ensures m.Heading(Witness(a, b), 0) == Some(a) && m.Data(Witness(a, b), 0) == (if a == "" then "" else "x")
    ensures m.Heading(Witness(a, b), 1) == Some(b) && m.Data(Witness(a, b), 1) == (if b == "" then "" else "y")
    ensures m.Heading(Witness(a, b), 2) == None
  {
    var lines := Witness(a, b);
    WitnessHeading(m, lines, 0, a, 'x');
    WitnessHeading(m, lines, 1, b, 'y');
    PlainText(m);
  }

  lemma FirstInScope(m: MdSplitter, a: string, b: string)
    requires m.Valid() && a in m.headers && b in m.headers && |a| < |b|
    ensures ScopeSays(m, Witness(a, b), 3, m.headers[a], if a == "" then "" else "x")
  {
    var lines := Witness(a, b);
    WitnessLines(m, a, b);
    assert m.Level(lines, 0) < m.Level(lines, 1);
    assert InScope(m, lines, 0, 3) && m.Name(lines, 0) == m.headers[a];
  }

  lemma SecondInScope(m: MdSplitter, a: string, b: string)
    requires m.Valid() && a in m.headers && b in m.headers && b != ""
    ensures ScopeSays(m, Witness(a, b), 3, m.headers[b], "y")
  {
    var lines := Witness(a, b);
    WitnessLines(m, a, b);
    assert InScope(m, lines, 1, 3) && m.Name(lines, 1) == m.headers[b];
  }

  /** Behind the two headings one name has two data. */
  lemma SameNameFails(m: MdSplitter, a: string, b: string)
    requires m.Valid() && a in m.headers && b in m.headers && |a| < |b| && m.headers[a] == m.headers[b]
    ensures !MetaIsScope(m, Witness(a, b), 3)
  {
    FirstInScope(m, a, b);
    SecondInScope(m, a, b);
  }

  /** A document that ends in a plain line ends in a chunk, trimmed or not. */
  lemma LastSection(m: MdSplitter, lines: seq<string>)
    requires lines != [] && m.Heading(lines, |lines| - 1).None?
    ensures m.Sections(lines) != [] && m.Sections(lines)[|m.Sections(lines)| - 1].end == |lines|
  {
    OpenSectionStart(m, lines, |lines|);
    var start := m.Cuts(lines, |lines|).1;
    assert m.Body(lines, start, |lines|) != [];
  }

  lemma NoFeed(header: string, c: char)
    requires AllHashes(header) && c != '\n'
    ensures '\n' !in HeadingText(header, [c])
  {
  }

  /** The witness is the lines of a text. */
  lemma WitnessText(a: string, b: string)
    requires AllHashes(a) && AllHashes(b)
    ensures Split(Join(Witness(a, b), "\n"), "\n") == Witness(a, b)
  {
    NoFeed(a, 'x');
    NoFeed(b, 'y');
    SplitJoin(Witness(a, b), "\n");
  }

  lemma HashesByLength(a: string, b: string)
    requires AllHashes(a) && AllHashes(b)
    ensures |a| == |b| ==> a == b
  {
  }

  /** The metadata of chunk `k` says exactly what the headings in scope at the end of its section say. */
  ghost predicate ChunkKnowsScope(m: MdSplitter, text: string, k: nat)
    requires k < |m.Result(text)|
  {
    var lines, metadata := Split(text, "\n"), m.Result(text)[k].metadata;
    forall name, data ::
      (name in metadata && metadata[name] == data) <==> ScopeSays(m, lines, m.Sections(lines)[k].end, name, data)
  }

  lemma SomeChunkFails(m: MdSplitter, a: string, b: string) returns (text: string, k: nat)
    requires m.Valid() && a in m.headers && b in m.headers && |a| < |b| && m.headers[a] == m.headers[b]
    ensures k < |m.Result(text)| && !ChunkKnowsScope(m, text, k)
  {
    var lines := Witness(a, b);
    text := Join(lines, "\n");
    WitnessText(a, b);
    WitnessLines(m, a, b);
    LastSection(m, lines);
    k := |m.Sections(lines)| - 1;
    SameNameFails(m, a, b);
    ChunkFailsAt(m, text, lines, k, 3);
  }

  lemma ChunkFailsAt(m: MdSplitter, text: string, lines: seq<string>, k: nat, e: nat)
    requires lines == Split(text, "\n") && k < |m.Sections(lines)| && m.Sections(lines)[k].end == e <= |lines|
    requires !MetaIsScope(m, lines, e)
    ensures k < |m.Result(text)| && !ChunkKnowsScope(m, text, k)
  {
    assert m.Result(text)[k].metadata == m.Meta(lines, e);
  }

  /** Every chunk of every text knows its scope exactly when different headers have different names. */
  lemma ScopeHoldsIff(m: MdSplitter)
    requires m.Valid()
    ensures (forall text, k: nat :: k < |m.Result(text)| ==> ChunkKnowsScope(m, text, k)) <==> DistinctNames(m)
  {
    if DistinctNames(m) {
      forall text, k: nat | k < |m.Result(text)| ensures ChunkKnowsScope(m, text, k) {
        ChunkMetadata(m, text, k);
      }
    } else {
      var a, b :| a in m.headers && b in m.headers && m.headers[a] == m.headers[b] && a != b;
      HashesByLength(a, b);
      var s, l := if |a| < |b| then a else b, if |a| < |b| then b else a;
      var text, k := SomeChunkFails(m, s, l);
    }
  }
}
