/** Markdown and fallback chunking. */
module MarkdownChunker {
  // The chunkers of `rag_chunker.go` that split by headers and then by the separator cascade.

  import opened Wrappers
  import opened Text
  import opened Documents
  import opened Cascade
  import opened CascadeProofs
  import opened CascadeBounds
  import opened RagChunker
  import opened MdHeaders
  import opened HeaderScope
  import opened HeaderSections
  import opened MdFences

  const HEADERS: map<string, string> := map["##" := "h2", "###" := "h3"]

  const SPLITTER: MdSplitter := MdSplitter(HEADERS, false)

  /** The built-in headers are accepted, and their names are distinct. */
  lemma HeadersAreValid()
    ensures SPLITTER.Valid() && DistinctNames(SPLITTER)
    ensures MdSplitter.New(Some(MdSplitterConfig(HEADERS, false))) == Ok(SPLITTER)
  {
    assert "##" in HEADERS && HEADERS["##"] == "h2" && HEADERS["###"] == "h3";
    assert HEADERS != map[];
  }

  function Lookup(m: map<string, string>, key: string): string {
    if key in m then m[key] else ""
  }

  /** A chunk before it gets its number. */
  datatype Part = Part(content: string, meta: ChunkMeta)

  function MetaOf(md: MdSplitterChunk, source: string): ChunkMeta {
    HeaderMeta(Lookup(md.metadata, "h2"), Lookup(md.metadata, "h3"), source)
  }

  function Label(texts: seq<string>, meta: ChunkMeta): (r: seq<Part>)
    ensures |r| == |texts| && forall k :: 0 <= k < |r| ==> r[k] == Part(texts[k], meta)
  {
    seq(|texts|, k requires 0 <= k < |texts| => Part(texts[k], meta))
  }

  /** The chunks of one section: the section itself, or its cascade when it is too large. */
  function SectionParts(md: MdSplitterChunk, config: ChunkingConfig): seq<Part> {
    if |md.content| > config.chunkSize then
        Label(Cascade.Texts(TextPieces(md.content, config)), MetaOf(md, "mdsplitter-split"))
    else [Part(md.content, MetaOf(md, "mdsplitter"))]
  }

  function MarkdownParts(mds: seq<MdSplitterChunk>, config: ChunkingConfig): seq<Part> {
    if mds == [] then [] else SectionParts(mds[0], config) + MarkdownParts(mds[1..], config)
  }

  /** Numbers parts from `id` on. */
  function Number(parts: seq<Part>, id: nat): (r: seq<DocumentChunk>)
    ensures |r| == |parts| && NumberedFrom(r, id)
    ensures forall k :: 0 <= k < |r| ==> r[k].content == parts[k].content && r[k].meta == parts[k].meta
  {
    seq(|parts|, k requires 0 <= k < |parts| => DocumentChunk(ChunkId(id + k), parts[k].content, parts[k].meta))
  }

  lemma NumberOne(done: seq<Part>, part: Part, id: nat)
    ensures Number(done + [part], id)
      == Number(done, id) + [DocumentChunk(ChunkId(id + |done|), part.content, part.meta)]
  {
  }

  /** Appends the chunks of equally labelled texts. */
  method EmitTexts(texts: seq<string>, meta: ChunkMeta, ghost done: seq<Part>, emitted: seq<DocumentChunk>, id: nat)
    returns (chunks: seq<DocumentChunk>, chunkID: nat)
    requires emitted == Number(done, 1) && id == 1 + |done|
    ensures chunks == Number(done + Label(texts, meta), 1)
    ensures chunkID == id + |texts|
  {
    chunks, chunkID := emitted, id;
    ghost var parts := Label(texts, meta);
    assert done + parts[..0] == done;
    for j := 0 to |texts|
      invariant chunkID == id + j && chunks == Number(done + parts[..j], 1)
    {
      NumberOne(done + parts[..j], parts[j], 1);
      assert done + parts[..j + 1] == done + parts[..j] + [parts[j]];
      chunks := chunks + [DocumentChunk(ChunkId(chunkID), texts[j], meta)];
      chunkID := chunkID + 1;
    }
    assert parts[..|texts|] == parts;
  }

  /** Appends the chunks of one section, numbering on from `id`. */
  method EmitSection(md: MdSplitterChunk, config: ChunkingConfig, ghost done: seq<Part>, emitted: seq<DocumentChunk>,
                     id: nat)
    returns (chunks: seq<DocumentChunk>, chunkID: nat)
    requires emitted == Number(done, 1) && id == 1 + |done|
    ensures chunks == Number(done + SectionParts(md, config), 1)
    ensures chunkID == 1 + |done + SectionParts(md, config)|
  {
    var body := md.content;
    if |body| > config.chunkSize {
      var subs := RagChunker.ChunkText(body, config);
      chunks, chunkID := EmitTexts(subs, MetaOf(md, "mdsplitter-split"), done, emitted, id);
    } else {
      NumberOne(done, Part(body, MetaOf(md, "mdsplitter")), 1);
      chunks := emitted + [DocumentChunk(ChunkId(id), body, MetaOf(md, "mdsplitter"))];
      chunkID := id + 1;
    }
  }

  lemma MarkdownFrom(mds: seq<MdSplitterChunk>, i: nat, config: ChunkingConfig, done: seq<Part>)
    requires i < |mds|
    ensures done + MarkdownParts(mds[i..], config)
      == done + SectionParts(mds[i], config) + MarkdownParts(mds[i + 1..], config)
  {
    assert mds[i..][0] == mds[i] && mds[i..][1..] == mds[i + 1..];
    Assoc(done, SectionParts(mds[i], config), MarkdownParts(mds[i + 1..], config));
  }

  method ChunkMarkdownWithHeaders(content: string, config: ChunkingConfig) returns (chunks: seq<DocumentChunk>)
    ensures chunks == Number(MarkdownParts(SPLITTER.Result(content), config), 1)
  {
    HeadersAreValid();
    var splitter := MdSplitter.New(Some(MdSplitterConfig(HEADERS, false)));
    var mdChunks := splitter.value.Split(content);
    chunks := [];
    var chunkID := 1;
    ghost var done: seq<Part> := [];
    assert mdChunks[0..] == mdChunks && [] + MarkdownParts(mdChunks, config) == MarkdownParts(mdChunks, config);
    for i := 0 to |mdChunks|
      invariant chunkID == 1 + |done| && chunks == Number(done, 1)
      invariant MarkdownParts(mdChunks, config) == done + MarkdownParts(mdChunks[i..], config)
    {
      var md := mdChunks[i];
      MarkdownFrom(mdChunks, i, config, done);
      chunks, chunkID := EmitSection(md, config, done, chunks, chunkID);
      done := done + SectionParts(md, config);
    }
    assert done + [] == done;
  }

  method ChunkByRecursiveSplit(content: string, config: ChunkingConfig) returns (chunks: seq<DocumentChunk>)
    ensures chunks == Number(Label(Cascade.Texts(TextPieces(content, config)), FallbackMeta), 1)
  {
    var parts := RagChunker.ChunkText(content, config);
    var next;
    chunks, next := EmitTexts(parts, FallbackMeta, [], [], 1);
    assert [] + Label(parts, FallbackMeta) == Label(parts, FallbackMeta);
  }

  // ---------- end to end ----------

  function PartTexts(parts: seq<Part>): (r: seq<string>)
    ensures |r| == |parts|
  {
    seq(|parts|, k requires 0 <= k < |parts| => parts[k].content)
  }

  lemma PartTextsAppend(a: seq<Part>, b: seq<Part>)
    ensures PartTexts(a + b) == PartTexts(a) + PartTexts(b)
  {
  }

  lemma TextsAppend(a: seq<Piece>, b: seq<Piece>)
    ensures Cascade.Texts(a + b) == Cascade.Texts(a) + Cascade.Texts(b)
  {
  }

  /**
   * The fresh texts of the chunks hold what must be kept of the text, once and in order; everything else is a short
   * suffix of the chunk before and separators; and no chunk exceeds the bound, which is the size without overlap.
   */
  ghost predicate Conserves(pieces: seq<Piece>, text: string, config: ChunkingConfig) {
    && Kept(FreshText(pieces)) == Kept(text)
    && Chained(pieces, None, SEPARATORS, RagChunker.Overlap(config))
    && AllWithin(Cascade.Texts(pieces), Bound(RagChunker.ChunkSize(config), RagChunker.Overlap(config), 2))
  }

  lemma CascadeConserves(text: string, config: ChunkingConfig)
    requires config.enabled
    ensures Conserves(TextPieces(text, config), text, config)
  {
    SeparatorsAreValid();
    if text != "" {
      SplitConserves(RagStyle, text, SEPARATORS, 0, RagChunker.ChunkSize(config), RagChunker.Overlap(config));
      SplitShape(RagStyle, text, SEPARATORS, 0, RagChunker.ChunkSize(config), RagChunker.Overlap(config), 2);
    }
  }

  lemma ConservesAppend(a: seq<Piece>, s: string, b: seq<Piece>, t: string, config: ChunkingConfig)
    requires Conserves(a, s, config) && Conserves(b, t, config)
    ensures Conserves(a + b, s + t, config)
  {
    FreshAppend(a, b);
    KeptAppend(FreshText(a), FreshText(b));
    KeptAppend(s, t);
    ChainedAppend(a, b, SEPARATORS, RagChunker.Overlap(config));
    TextsAppend(a, b);
  }

  /** The pieces of one section: all of it at once, or those of its cascade. */
  function SectionPieces(md: MdSplitterChunk, config: ChunkingConfig): seq<Piece> {
    if |md.content| > config.chunkSize then TextPieces(md.content, config) else [Piece("", "", md.content)]
  }

  function MarkdownPieces(mds: seq<MdSplitterChunk>, config: ChunkingConfig): seq<Piece> {
    if mds == [] then [] else SectionPieces(mds[0], config) + MarkdownPieces(mds[1..], config)
  }

  lemma WholeText(text: string)
    ensures Piece("", "", text).Text() == text && FreshText([Piece("", "", text)]) == text
  {
    assert "" + "" + text == text;
    assert [Piece("", "", text)][1..] == [];
    assert text + "" == text;
  }

  lemma SectionConserves(md: MdSplitterChunk, config: ChunkingConfig)
    requires config.enabled
    ensures PartTexts(SectionParts(md, config)) == Cascade.Texts(SectionPieces(md, config))
    ensures Conserves(SectionPieces(md, config), md.content, config)
  {
    if |md.content| > config.chunkSize {
      CascadeConserves(md.content, config);
    } else {
      WholeText(md.content);
    }
  }

  lemma {:induction false} SectionsConserve(mds: seq<MdSplitterChunk>, config: ChunkingConfig)
    requires config.enabled
    ensures PartTexts(MarkdownParts(mds, config)) == Cascade.Texts(MarkdownPieces(mds, config))
    ensures Conserves(MarkdownPieces(mds, config), Concat(Contents(mds)), config)
  {
    if mds != [] {
      SectionConserves(mds[0], config);
      SectionsConserve(mds[1..], config);
      PartTextsAppend(SectionParts(mds[0], config), MarkdownParts(mds[1..], config));
      TextsAppend(SectionPieces(mds[0], config), MarkdownPieces(mds[1..], config));
      assert Contents(mds)[1..] == Contents(mds[1..]);
      ConservesAppend(SectionPieces(mds[0], config), mds[0].content,
                      MarkdownPieces(mds[1..], config), Concat(Contents(mds[1..])), config);
    }
  }

  /** Header split and cascade together keep the document, in order, whatever the overlap. */
  lemma MarkdownConserves(content: string, config: ChunkingConfig)
    requires config.enabled
    ensures
      var mds := SPLITTER.Result(content);
      && PartTexts(MarkdownParts(mds, config)) == Cascade.Texts(MarkdownPieces(mds, config))
      && Conserves(MarkdownPieces(mds, config), content, config)
  {
    var mds := SPLITTER.Result(content);
    SectionsConserve(mds, config);
    SplitIsLossless(SPLITTER, content);
    assert Kept("\n") == "" by { assert "\n"[1..] == ""; }
    KeptJoin(Contents(mds), "\n");
  }

  /** Without overlap the chunks themselves hold what must be kept, once and in order. */
  lemma NothingTwice(pieces: seq<Piece>, text: string, config: ChunkingConfig)
    requires Conserves(pieces, text, config) && config.overlapSize == 0
    ensures Kept(Concat(Cascade.Texts(pieces))) == Kept(text)
  {
    forall k | 0 <= k < |pieces| ensures pieces[k].tail == "" && pieces[k].glue == "" {
      assert Linked(pieces[k], Before(pieces, k, None), SEPARATORS, 0);
    }
    FreshIsAll(pieces);
  }

  /** `value` is what the heading of this name in scope says, or nothing when there is none. */
  ghost predicate Carries(lines: seq<string>, e: nat, name: string, value: string)
    requires e <= |lines|
  {
    if exists data :: ScopeSays(SPLITTER, lines, e, name, data) then ScopeSays(SPLITTER, lines, e, name, value)
    else value == ""
  }

  lemma {:induction false} PartOwner(mds: seq<MdSplitterChunk>, config: ChunkingConfig, part: Part) returns (j: nat)
    requires part in MarkdownParts(mds, config)
    ensures j < |mds| && part in SectionParts(mds[j], config)
  {
    if part in SectionParts(mds[0], config) {
      j := 0;
    } else {
      var i := PartOwner(mds[1..], config, part);
      j := i + 1;
    }
  }

  /** `part` was cut from section `j` and carries the h2 and h3 in scope at the end of that section. */
  ghost predicate CutFrom(content: string, config: ChunkingConfig, part: Part, j: nat)
  {
    var lines := Split(content, "\n");
    var sections := SPLITTER.Sections(lines);
    && j < |sections| && sections[j].end <= |lines|
    && part in SectionParts(SPLITTER.Result(content)[j], config)
    && part.meta.HeaderMeta?
    && Carries(lines, sections[j].end, "h2", part.meta.h2)
    && Carries(lines, sections[j].end, "h3", part.meta.h3)
  }

  lemma PartMeta(md: MdSplitterChunk, config: ChunkingConfig, part: Part)
    requires part in SectionParts(md, config)
    ensures part.meta.HeaderMeta? && part.meta.h2 == Lookup(md.metadata, "h2") &&
      part.meta.h3 == Lookup(md.metadata, "h3")
  {
  }

  lemma SectionCarries(content: string, config: ChunkingConfig, part: Part, j: nat)
    requires j < |SPLITTER.Result(content)| && part in SectionParts(SPLITTER.Result(content)[j], config)
    ensures CutFrom(content, config, part, j)
  {
    HeadersAreValid();
    ChunkMetadata(SPLITTER, content, j);
    PartMeta(SPLITTER.Result(content)[j], config, part);
    var lines := Split(content, "\n");
    var e := SPLITTER.Sections(lines)[j].end;
    LookupCarries(lines, e, "h2");
    LookupCarries(lines, e, "h3");
  }

  /** Every chunk carries the h2 and h3 of the section it was cut from. */
  lemma MarkdownProvenance(content: string, config: ChunkingConfig, k: nat)
    requires k < |MarkdownParts(SPLITTER.Result(content), config)|
    ensures exists j :: CutFrom(content, config, MarkdownParts(SPLITTER.Result(content), config)[k], j)
  {
    var j := PartOwner(SPLITTER.Result(content), config, MarkdownParts(SPLITTER.Result(content), config)[k]);
    SectionCarries(content, config, MarkdownParts(SPLITTER.Result(content), config)[k], j);
  }

  lemma LookupCarries(lines: seq<string>, e: nat, name: string)
    requires e <= |lines| && MetaIsScope(SPLITTER, lines, e)
    ensures Carries(lines, e, name, Lookup(SPLITTER.Meta(lines, e), name))
  {
    var meta := SPLITTER.Meta(lines, e);
    if name in meta {
      assert ScopeSays(SPLITTER, lines, e, name, meta[name]);
    }
  }

  // ---------- titles ----------

  /** Consecutive sections leave no line out. */
  lemma {:induction false} SectionOf(sections: seq<Section>, from: nat, to: nat, i: nat) returns (k: nat)
    requires Consecutive(sections, from, to) && from <= i < to
    ensures k < |sections| && sections[k].start <= i < sections[k].end
  {
    if i < sections[0].end {
      k := 0;
    } else {
      k := SectionOf(sections[1..], sections[0].end, to, i);
      k := k + 1;
    }
  }

  /** Every heading starts a section. */
  lemma HeadingStarts(m: MdSplitter, lines: seq<string>, i: nat) returns (k: nat)
    requires !m.trimHeaders && i < |lines| && m.Heading(lines, i).Some?
    ensures k < |m.Sections(lines)| && m.Sections(lines)[k].start == i < m.Sections(lines)[k].end <= |lines|
    ensures forall j :: i < j < m.Sections(lines)[k].end ==> m.Heading(lines, j).None?
  {
    SectionsConsecutive(m, lines);
    k := SectionOf(m.Sections(lines), 0, |lines|, i);
    var s := m.Sections(lines)[k];
    assert s in m.Sections(lines);
    SectionsLead(m, lines, s);
  }

  /** The chunk that a heading starts carries the heading's text under the heading's name. */
  lemma TitledChunk(m: MdSplitter, text: string, i: nat, header: string) returns (k: nat)
    requires m.Valid() && DistinctNames(m) && !m.trimHeaders && i < |Split(text, "\n")|
    requires Unfenced(Marks(Split(text, "\n")), 0, i) && IsHeadingLine(m, Split(text, "\n")[i], header)
    ensures k < |m.Result(text)| && m.Sections(Split(text, "\n"))[k].start == i
    ensures
      var metadata := m.Result(text)[k].metadata;
      && m.headers[header] in metadata
      && metadata[m.headers[header]] == TrimSpace(TrimSpace(Split(text, "\n")[i])[|header|..])
  {
    var lines := Split(text, "\n");
    HeadingIff(m, lines, i, header);
    k := HeadingStarts(m, lines, i);
    var data := TrimSpace(TrimSpace(lines[i])[|header|..]);
    assert SaysAt(m, lines, i, m.Sections(lines)[k].end, m.headers[header], data);
    ChunkSays(m, text, k, m.headers[header], data);
  }

  lemma PartsTitled(md: MdSplitterChunk, config: ChunkingConfig, level: nat, title: string)
    requires level == 2 ==> "h2" in md.metadata && md.metadata["h2"] == title
    requires level == 3 ==> "h3" in md.metadata && md.metadata["h3"] == title
    requires 2 <= level <= 3
    ensures forall part :: part in SectionParts(md, config) ==> IsTitled(part, level, title)
  {
    forall part | part in SectionParts(md, config) ensures IsTitled(part, level, title) {
      PartMeta(md, config, part);
    }
  }

  predicate IsTitled(part: Part, level: nat, title: string) {
    part.meta.HeaderMeta? && title == if level == 2 then part.meta.h2 else part.meta.h3
  }

  /**
   * An unfenced line that starts with two hashes and a space gives the chunks of its section their h2, one with three
   * hashes their h3.
   */
  lemma TitlesAreCarried(content: string, i: nat, level: nat, config: ChunkingConfig) returns (k: nat)
    requires i < |Split(content, "\n")| && Unfenced(Marks(Split(content, "\n")), 0, i) && 2 <= level <= 3
    requires HasPrefix(TrimSpace(Split(content, "\n")[i]), if level == 2 then "## " else "### ")
    ensures k < |SPLITTER.Result(content)| && SPLITTER.Sections(Split(content, "\n"))[k].start == i
    ensures forall part :: part in SectionParts(SPLITTER.Result(content)[k], config) ==>
      IsTitled(part, level, TrimSpace(TrimSpace(Split(content, "\n")[i])[level..]))
  {
    HeadersAreValid();
    var line := Split(content, "\n")[i];
    if level == 2 {
      assert "##" + " " == "## ";
      BuiltInHeader(line, "##");
      k := TitledChunk(SPLITTER, content, i, "##");
    } else {
      assert "###" + " " == "### ";
      BuiltInHeader(line, "###");
      k := TitledChunk(SPLITTER, content, i, "###");
    }
    PartsTitled(SPLITTER.Result(content)[k], config, level, TrimSpace(TrimSpace(line)[level..]));
  }

  lemma BuiltInHeader(line: string, header: string)
    requires header == "##" || header == "###"
    requires HasPrefix(TrimSpace(line), header + " ")
    ensures header in HEADERS && HEADERS[header] == (if |header| == 2 then "h2" else "h3")
    ensures IsHeadingLine(SPLITTER, line, header)
  {
    assert TrimSpace("") == "";
  }

  /** The label says whether the section was too large, and a section that was not is one chunk. */
  lemma LabelsTell(md: MdSplitterChunk, config: ChunkingConfig, part: Part)
    requires part in SectionParts(md, config)
    ensures part.meta.HeaderMeta?
    ensures part.meta.source == if |md.content| > config.chunkSize then "mdsplitter-split" else "mdsplitter"
    ensures |md.content| <= config.chunkSize ==> part.content == md.content
  {
  }
}
