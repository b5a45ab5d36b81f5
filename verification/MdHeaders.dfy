/** The markdown header splitter of `mdsplitter.go`. */
module MdHeaders {
  import opened Wrappers
  import opened Text

  datatype MdSplitterConfig = MdSplitterConfig(headers: map<string, string>, trimHeaders: bool)

  datatype MdSplitterChunk = MdSplitterChunk(content: string, metadata: map<string, string>)

  datatype MetaRecord = MetaRecord(name: string, level: nat, data: string)

  datatype ConfigError = NilConfig | NoHeaders | NotAHeader

  predicate AllHashes(header: string) {
    forall k :: 0 <= k < |header| ==> header[k] == '#'
  }

  // ---------- fences and headings ----------

  const BACKTICKS: string := "```"
  const TILDES: string := "~~~"

  /** Go's `strings.Count` for a non-empty argument. */
  function Count(s: string, sub: string): nat
    requires sub != ""
  {
    |Split(s, sub)| - 1
  }

  /** The fence that is open behind a trimmed line. */
  function NextFence(fence: Option<string>, trimmed: string): Option<string> {
    match fence
    case None =>
      if HasPrefix(trimmed, BACKTICKS) && Count(trimmed, BACKTICKS) == 1 then Some(BACKTICKS)
      else if HasPrefix(trimmed, TILDES) then Some(TILDES)
      else None
    case Some(opening) => if HasPrefix(trimmed, opening) then None else fence
  }

  /** The fence that is open before line `i`. */
  function FenceAt(lines: seq<string>, i: nat): Option<string>
    requires i <= |lines|
  {
    if i == 0 then None
    else if lines[i - 1] == "" then FenceAt(lines, i - 1)
    else NextFence(FenceAt(lines, i - 1), TrimSpace(lines[i - 1]))
  }

  predicate Matches(trimmed: string, header: string) {
    HasPrefix(trimmed, header) && (|trimmed| == |header| || trimmed[|header|] == ' ')
  }

  /** The leading run of `#`. */
  function HashRun(s: string): (run: string)
    ensures run <= s && AllHashes(run)
    ensures |run| < |s| ==> s[|run|] != '#'
  {
    if s != "" && s[0] == '#' then
      var rest := HashRun(s[1..]);
      assert s == ['#'] + s[1..];
      ['#'] + rest
    else ""
  }

  /** A trimmed line matches at most one header: its own run of `#`. */
  lemma MatchIsUnique(trimmed: string, header: string)
    requires Trimmed(trimmed) && AllHashes(header)
    ensures Matches(trimmed, header) ==> header == HashRun(trimmed)
  {
    var run := HashRun(trimmed);
    if Matches(trimmed, header) {
      assert header == trimmed[..|header|] && run == trimmed[..|run|];
    }
  }

  /** A valid splitter never changes its headers. */
  datatype MdSplitter = MdSplitter(headers: map<string, string>, trimHeaders: bool) {

    predicate Valid() {
      headers != map[] && forall h :: h in headers ==> AllHashes(h)
    }

    static function New(config: Option<MdSplitterConfig>): (r: Result<MdSplitter, ConfigError>)
      ensures r.Ok?
        <==> config.Some? && config.value.headers != map[] && forall h :: h in config.value.headers ==> AllHashes(h)
      ensures r.Ok? ==>
        r.value.Valid() && r.value.headers == config.value.headers && r.value.trimHeaders == config.value.trimHeaders
    {
      if config.None? then Err(NilConfig)
      else if config.value.headers == map[] then Err(NoHeaders)
      else if exists h :: h in config.value.headers && !AllHashes(h) then Err(NotAHeader)
      else Ok(MdSplitter(config.value.headers, config.value.trimHeaders))
    }

    /** The configured header that line `i` is, outside fences. */
    function Heading(lines: seq<string>, i: nat): Option<string>
      requires i < |lines|
    {
      var run := HashRun(TrimSpace(lines[i]));
      if lines[i] != "" && FenceAt(lines, i + 1).None? && run in headers && Matches(TrimSpace(lines[i]), run) then
          Some(run) else None
    }

    function Level(lines: seq<string>, i: nat): nat
      requires i < |lines| && Heading(lines, i).Some?
    {
      |Heading(lines, i).value|
    }

    function Name(lines: seq<string>, i: nat): string
      requires i < |lines| && Heading(lines, i).Some?
    {
      headers[Heading(lines, i).value]
    }

    function Data(lines: seq<string>, i: nat): string
      requires i < |lines| && Heading(lines, i).Some?
    {
      TrimSpace(TrimSpace(lines[i])[Level(lines, i)..])
    }

    // ---------- the stack of open headings ----------

    /** The lines of headings, all before line `bound`. */
    predicate AreHeadings(lines: seq<string>, open: seq<nat>, bound: nat)
      requires bound <= |lines|
    {
      forall k :: 0 <= k < |open| ==> open[k] < bound && Heading(lines, open[k]).Some?
    }

    /** How many of the open headings stay open behind a heading of the given level. */
    function Surviving(lines: seq<string>, open: seq<nat>, level: nat): (n: nat)
      requires AreHeadings(lines, open, |lines|)
      ensures n <= |open|
    {
      if open == [] || Level(lines, open[|open| - 1]) < level then |open|
      else Surviving(lines, open[..|open| - 1], level)
    }

    /** The open headings that heading `i` leaves open. */
    function Kept(lines: seq<string>, open: seq<nat>, i: nat): (kept: seq<nat>)
      requires i < |lines| && Heading(lines, i).Some? && AreHeadings(lines, open, i)
      ensures AreHeadings(lines, kept, i) && kept == open[..Surviving(lines, open, Level(lines, i))]
    {
      open[..Surviving(lines, open, Level(lines, i))]
    }

    /** The open headings that heading `i` closes. */
    function Closed(lines: seq<string>, open: seq<nat>, i: nat): (closed: seq<nat>)
      requires i < |lines| && Heading(lines, i).Some? && AreHeadings(lines, open, i)
      ensures AreHeadings(lines, closed, i) && closed == open[Surviving(lines, open, Level(lines, i))..]
    {
      open[Surviving(lines, open, Level(lines, i))..]
    }

    /** The stack of open headings before line `i`. */
    function Open(lines: seq<string>, i: nat): (open: seq<nat>)
      requires i <= |lines|
      ensures AreHeadings(lines, open, i)
    {
      if i == 0 then []
      else
        var before := Open(lines, i - 1);
        if Heading(lines, i - 1).None? then before
        else Kept(lines, before, i - 1) + [i - 1]
    }

    function Names(lines: seq<string>, open: seq<nat>): set<string>
      requires AreHeadings(lines, open, |lines|)
    {
      set k | 0 <= k < |open| :: Name(lines, open[k])
    }

    /** The metadata map before line `i`: every closed heading took its name out. */
    function Meta(lines: seq<string>, i: nat): map<string, string>
      requires i <= |lines|
    {
      if i == 0 then map[]
      else if Heading(lines, i - 1).None? then Meta(lines, i - 1)
      else
        (Meta(lines, i - 1) - Names(lines, Closed(lines, Open(lines, i - 1), i - 1)))
          [Name(lines, i - 1) := Data(lines, i - 1)]
    }

    function Records(lines: seq<string>, open: seq<nat>): (r: seq<MetaRecord>)
      requires AreHeadings(lines, open, |lines|)
      ensures |r| == |open|
    {
      seq(|open|, k requires 0 <= k < |open| =>
        MetaRecord(Name(lines, open[k]), Level(lines, open[k]), Data(lines, open[k])))
    }

    // ---------- sections ----------

    /** The lines that go into a chunk for lines `start` to `end`. */
    function Body(lines: seq<string>, start: nat, end: nat): seq<string>
      requires start <= end <= |lines|
    {
      if trimHeaders && start < end && Heading(lines, start).Some? then lines[start + 1..end] else lines[start..end]
    }

    predicate AreSections(lines: seq<string>, sections: seq<Section>) {
      forall k :: 0 <= k < |sections| ==> sections[k].start <= sections[k].end <= |lines|
    }

    /** The sections closed before line `i`, and where the open one starts. */
    function Cuts(lines: seq<string>, i: nat): (c: (seq<Section>, nat))
      requires i <= |lines|
      ensures AreSections(lines, c.0) && c.1 <= i
    {
      if i == 0 then ([], 0)
      else
        var (closed, start) := Cuts(lines, i - 1);
        if Heading(lines, i - 1).None? then (closed, start)
        else (Close(lines, closed, start, i - 1), i - 1)
    }

    function Close(lines: seq<string>, closed: seq<Section>, start: nat, end: nat): (r: seq<Section>)
      requires start <= end <= |lines| && AreSections(lines, closed)
      ensures AreSections(lines, r)
    {
      if Body(lines, start, end) == [] then closed else closed + [Section(start, end)]
    }

    /** All sections of a document. */
    function Sections(lines: seq<string>): (r: seq<Section>)
      ensures AreSections(lines, r)
    {
      var (closed, start) := Cuts(lines, |lines|);
      Close(lines, closed, start, |lines|)
    }

    function Chunks(lines: seq<string>, sections: seq<Section>): (r: seq<MdSplitterChunk>)
      requires AreSections(lines, sections)
      ensures |r| == |sections|
    {
      seq(|sections|, k requires 0 <= k < |sections| =>
        MdSplitterChunk(Join(Body(lines, sections[k].start, sections[k].end), "\n"), Meta(lines, sections[k].end)))
    }

    /** What splitting a text yields; it depends on nothing but the text and the headers. */
    function Result(text: string): seq<MdSplitterChunk> {
      var lines := Text.Split(text, "\n");
      Chunks(lines, Sections(lines))
    }

    // ---------- one line ----------

    /** The variables of the loop before line `i`. */
    ghost predicate Tracks(lines: seq<string>, i: nat, records: seq<MetaRecord>, meta: map<string, string>,
                           current: seq<string>, chunks: seq<MdSplitterChunk>)
      requires i <= |lines|
    {
      && records == Records(lines, Open(lines, i))
      && meta == Meta(lines, i)
      && current == Body(lines, Cuts(lines, i).1, i)
      && chunks == Chunks(lines, Cuts(lines, i).0)
    }

    lemma PlainLine(lines: seq<string>, i: nat, records: seq<MetaRecord>, meta: map<string, string>,
                    current: seq<string>, chunks: seq<MdSplitterChunk>)
      requires i < |lines| && Heading(lines, i).None? && Tracks(lines, i, records, meta, current, chunks)
      ensures Tracks(lines, i + 1, records, meta, current + [lines[i]], chunks)
    {
      BodyGrows(lines, Cuts(lines, i).1, i);
    }

    lemma RecordsStep(lines: seq<string>, i: nat)
      requires i < |lines| && Heading(lines, i).Some?
      ensures Records(lines, Open(lines, i + 1))
        == Records(lines, Kept(lines, Open(lines, i), i))
            + [MetaRecord(Name(lines, i), Level(lines, i), Data(lines, i))]
    {
      RecordsAppend(lines, Kept(lines, Open(lines, i), i), i);
    }

    lemma BodyStarts(lines: seq<string>, i: nat)
      requires i < |lines| && Heading(lines, i).Some?
      ensures Body(lines, Cuts(lines, i + 1).1, i + 1) == if trimHeaders then [] else [lines[i]]
    {
      assert Cuts(lines, i + 1).1 == i;
      assert lines[i..i + 1] == [lines[i]];
    }

    lemma ChunksStep(lines: seq<string>, i: nat)
      requires i < |lines| && Heading(lines, i).Some?
      ensures Chunks(lines, Cuts(lines, i + 1).0) == Chunks(lines, Cuts(lines, i).0) +
        if Body(lines, Cuts(lines, i).1, i) == [] then []
        else [MdSplitterChunk(Join(Body(lines, Cuts(lines, i).1, i), "\n"), Meta(lines, i))]
    {
      ChunksClose(lines, Cuts(lines, i).0, Cuts(lines, i).1, i);
    }

    lemma HeadingLine(lines: seq<string>, i: nat, records: seq<MetaRecord>, meta: map<string, string>,
                      current: seq<string>, chunks: seq<MdSplitterChunk>)
      requires i < |lines| && Heading(lines, i).Some? && Tracks(lines, i, records, meta, current, chunks)
      ensures
        var open := Open(lines, i);
        Tracks(lines, i + 1,
          Records(lines, Kept(lines, open, i)) + [MetaRecord(Name(lines, i), Level(lines, i), Data(lines, i))],
          (meta - Names(lines, Closed(lines, open, i)))[Name(lines, i) := Data(lines, i)],
          if trimHeaders then [] else [lines[i]],
          if current == [] then chunks else chunks + [MdSplitterChunk(Join(current, "\n"), meta)])
    {
      RecordsStep(lines, i);
      BodyStarts(lines, i);
      ChunksStep(lines, i);
    }

    lemma BodyGrows(lines: seq<string>, start: nat, i: nat)
      requires start <= i < |lines| && Heading(lines, i).None?
      ensures Body(lines, start, i + 1) == Body(lines, start, i) + [lines[i]]
    {
      var a := if trimHeaders && start < i && Heading(lines, start).Some? then start + 1 else start;
      assert lines[a..i + 1] == lines[a..i] + [lines[i]];
    }

    lemma ChunksClose(lines: seq<string>, closed: seq<Section>, start: nat, end: nat)
      requires start <= end <= |lines| && AreSections(lines, closed)
      ensures Chunks(lines, Close(lines, closed, start, end)) == Chunks(lines, closed) +
        if Body(lines, start, end) == [] then []
        else [MdSplitterChunk(Join(Body(lines, start, end), "\n"), Meta(lines, end))]
    {
    }

    lemma RecordsAppend(lines: seq<string>, open: seq<nat>, i: nat)
      requires i < |lines| && Heading(lines, i).Some? && AreHeadings(lines, open, |lines|)
      ensures AreHeadings(lines, open + [i], |lines|)
      ensures Records(lines, open + [i])
        == Records(lines, open) + [MetaRecord(Name(lines, i), Level(lines, i), Data(lines, i))]
    {
    }

    lemma SurvivingStep(lines: seq<string>, open: seq<nat>, k: nat, level: nat)
      requires 0 < k <= |open| && AreHeadings(lines, open, |lines|) && Level(lines, open[k - 1]) >= level
      ensures Surviving(lines, open[..k], level) == Surviving(lines, open[..k - 1], level)
      ensures Names(lines, open[k - 1..]) == {Name(lines, open[k - 1])} + Names(lines, open[k..])
    {
      assert open[..k][..k - 1] == open[..k - 1];
      var a, b := open[k - 1..], open[k..];
      assert forall j :: 0 < j < |a| ==> a[j] == b[j - 1];
      assert forall j :: 0 <= j < |b| ==> b[j] == a[j + 1];
      assert a[0] == open[k - 1];
      forall n | n in Names(lines, a) ensures n in {Name(lines, open[k - 1])} + Names(lines, b) {
        var j :| 0 <= j < |a| && n == Name(lines, a[j]);
        assert j > 0 ==> n == Name(lines, b[j - 1]);
      }
      forall n | n in Names(lines, b) ensures n in Names(lines, a) {
        var j :| 0 <= j < |b| && n == Name(lines, b[j]);
        assert n == Name(lines, a[j + 1]);
      }
    }

    /** The variables of the closing loop while the first `i` open headings are left. */
    ghost predicate Popping(lines: seq<string>, open: seq<nat>, level: nat, meta: map<string, string>,
                            i: nat, records: seq<MetaRecord>, left: map<string, string>)
      requires AreHeadings(lines, open, |lines|)
    {
      && i <= |open|
      && records == Records(lines, open[..i])
      && left == meta - Names(lines, open[i..])
      && Surviving(lines, open, level) == Surviving(lines, open[..i], level)
    }

    lemma PopOne(lines: seq<string>, open: seq<nat>, level: nat, meta: map<string, string>,
                 i: nat, records: seq<MetaRecord>, left: map<string, string>)
      requires AreHeadings(lines, open, |lines|) && Popping(lines, open, level, meta, i, records, left)
      requires i > 0 && records[i - 1].level >= level
      ensures Popping(lines, open, level, meta, i - 1, records[..i - 1], left - {records[i - 1].name})
    {
      assert open[..i][i - 1] == open[i - 1];
      SurvivingStep(lines, open, i, level);
      assert open[..i][..i - 1] == open[..i - 1];
      assert records[..i - 1] == Records(lines, open[..i - 1]);
    }

    lemma PopDone(lines: seq<string>, open: seq<nat>, level: nat, meta: map<string, string>,
                  i: nat, records: seq<MetaRecord>, left: map<string, string>)
      requires AreHeadings(lines, open, |lines|) && Popping(lines, open, level, meta, i, records, left)
      requires i > 0 ==> records[i - 1].level < level
      ensures Surviving(lines, open, level) == i
    {
      assert i > 0 ==> open[..i][i - 1] == open[i - 1];
    }

    /** Closes the headings of the same or a deeper level, from the top of the stack down. */
    method PopRecords(ghost lines: seq<string>, ghost open: seq<nat>, newLevel: nat, list: seq<MetaRecord>,
                      meta: map<string, string>)
      returns (recordedMetaList: seq<MetaRecord>, recordedMetaMap: map<string, string>)
      requires AreHeadings(lines, open, |lines|) && list == Records(lines, open)
      ensures
        var kept := Surviving(lines, open, newLevel);
        && recordedMetaList == Records(lines, open[..kept])
        && recordedMetaMap == meta - Names(lines, open[kept..])
    {
      recordedMetaList, recordedMetaMap := list, meta;
      var i := |recordedMetaList|;
      assert open[..i] == open;
      while i > 0
        invariant 0 <= i <= |open| && Popping(lines, open, newLevel, meta, i, recordedMetaList, recordedMetaMap)
      {
        if recordedMetaList[i - 1].level >= newLevel {
          PopOne(lines, open, newLevel, meta, i, recordedMetaList, recordedMetaMap);
          recordedMetaMap := recordedMetaMap - {recordedMetaList[i - 1].name};
          recordedMetaList := recordedMetaList[..i - 1];
          i := i - 1;
        } else {
          break;
        }
      }
      PopDone(lines, open, newLevel, meta, i, recordedMetaList, recordedMetaMap);
    }

    /** Emits the open chunk and opens the next one with a heading. */
    method EnterHeading(header: string, line: string, ghost lines: seq<string>, ghost i: nat, list: seq<MetaRecord>,
                        meta: map<string, string>, current: seq<string>, emitted: seq<MdSplitterChunk>)
      returns (recordedMetaList: seq<MetaRecord>, recordedMetaMap: map<string, string>,
               currentLines: seq<string>, chunks: seq<MdSplitterChunk>)
      requires i < |lines| && line == lines[i] && Heading(lines, i) == Some(header)
      requires Tracks(lines, i, list, meta, current, emitted)
      ensures Tracks(lines, i + 1, recordedMetaList, recordedMetaMap, currentLines, chunks)
    {
      HeadingLine(lines, i, list, meta, current, emitted);
      chunks, currentLines := emitted, current;
      if |currentLines| > 0 {
        chunks := chunks + [MdSplitterChunk(Join(currentLines, "\n"), meta)];
        currentLines := [];
      }
      if !trimHeaders {
        currentLines := currentLines + [line];
      }
      var trimmedLine, name, newLevel := TrimSpace(line), headers[header], |header|;
      recordedMetaList, recordedMetaMap := PopRecords(lines, Open(lines, i), newLevel, list, meta);
      var headerData := TrimSpace(trimmedLine[|header|..]);
      recordedMetaList := recordedMetaList + [MetaRecord(name, newLevel, headerData)];
      recordedMetaMap := recordedMetaMap[name := headerData];
    }

    /** Headers are looked up in any order; the result is always the same. */
    method Split(text: string) returns (chunks: seq<MdSplitterChunk>)
      requires Valid()
      ensures chunks == Result(text)
    {
      var recordedMetaList: seq<MetaRecord> := [];
      var recordedMetaMap: map<string, string> := map[];
      var currentLines: seq<string> := [];
      var inCodeBlock, openingFence := false, "";
      chunks := [];
      var lines := Text.Split(text, "\n");

      for i := 0 to |lines|
        invariant Tracks(lines, i, recordedMetaList, recordedMetaMap, currentLines, chunks)
        invariant FenceAt(lines, i) == if inCodeBlock then Some(openingFence) else None
      {
        var line := lines[i];
        if |line| == 0 {
          PlainLine(lines, i, recordedMetaList, recordedMetaMap, currentLines, chunks);
          currentLines := currentLines + [line];
          continue;
        }
        var trimmedLine := TrimSpace(line);

        if !inCodeBlock {
          if HasPrefix(trimmedLine, BACKTICKS) && Count(trimmedLine, BACKTICKS) == 1 {
            inCodeBlock, openingFence := true, BACKTICKS;
          } else if HasPrefix(trimmedLine, TILDES) {
            inCodeBlock, openingFence := true, TILDES;
          }
        } else {
          if HasPrefix(trimmedLine, openingFence) {
            inCodeBlock, openingFence := false, "";
          }
        }
        assert FenceAt(lines, i + 1) == if inCodeBlock then Some(openingFence) else None;
        if inCodeBlock {
          PlainLine(lines, i, recordedMetaList, recordedMetaMap, currentLines, chunks);
          currentLines := currentLines + [line];
          continue;
        }

        var header := FindHeader(trimmedLine, line);
        assert Heading(lines, i) == header;
        if header.Some? {
          recordedMetaList, recordedMetaMap, currentLines, chunks :=
            EnterHeading(header.value, line, lines, i, recordedMetaList, recordedMetaMap, currentLines, chunks);
        } else {
          PlainLine(lines, i, recordedMetaList, recordedMetaMap, currentLines, chunks);
          currentLines := currentLines + [line];
        }
      }
      ChunksClose(lines, Cuts(lines, |lines|).0, Cuts(lines, |lines|).1, |lines|);
      if |currentLines| > 0 {
        chunks := chunks + [MdSplitterChunk(Join(currentLines, "\n"), recordedMetaMap)];
      }
    }

    /** Tries the configured headers in any order. */
    method FindHeader(trimmedLine: string, ghost line: string) returns (found: Option<string>)
      requires Valid() && trimmedLine == TrimSpace(line)
      ensures
        var run := HashRun(trimmedLine);
        found == if run in headers && Matches(trimmedLine, run) then Some(run) else None
    {
      TrimSpaceKeeps(line);
      var untried := headers.Keys;
      while untried != {}
        invariant untried <= headers.Keys
        invariant forall h :: h in headers && h !in untried ==> !Matches(trimmedLine, h)
      {
        var header :| header in untried;
        MatchIsUnique(trimmedLine, header);
        if Matches(trimmedLine, header) {
          return Some(header);
        }
        untried := untried - {header};
      }
      return None;
    }
  }

  /** A run of lines. */
  datatype Section = Section(start: nat, end: nat)
}
