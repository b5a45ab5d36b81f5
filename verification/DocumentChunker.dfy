/** `ChunkDocument`. */
module DocumentChunker {
  // Which chunker of `rag_chunker.go` a file goes to, and what holds whichever it is.

  import opened Wrappers
  import opened Text
  import opened Documents
  import opened PdfPages
  import opened MarkdownChunker
  import opened MdHeaders
  import RagChunker
  import Cascade

  datatype FileType = PDF | DOCX | PPTX | XLSX | TXT | Markdown | Other

  datatype FileDocument = FileDocument(fileType: FileType, content: string, pages: seq<DocumentPage>) {

    predicate ByPages() {
      fileType == PDF && pages != []
    }
  }

  /** The chunks of a document, before they are numbered unless they hold pages. */
  function DocumentChunks(doc: FileDocument, config: RagChunker.ChunkingConfig): seq<DocumentChunk> {
    if doc.ByPages() then
      MakeChunks(doc.pages, PageGroups(doc.pages, 0, config.chunkSize, config.overlapSize, []), config.overlapSize, 1)
    else if doc.fileType == Other then
        Number(Label(Cascade.Texts(RagChunker.TextPieces(doc.content, config)), FallbackMeta), 1)
    else Number(MarkdownParts(SPLITTER.Result(doc.content), config), 1)
  }

  method ChunkDocument(doc: Option<FileDocument>, config: RagChunker.ChunkingConfig)
    returns (chunks: seq<DocumentChunk>)
    ensures chunks == if !config.enabled || doc.None? then [] else DocumentChunks(doc.value, config)
  {
    if !config.enabled || doc.None? {
      return [];
    }
    match doc.value.fileType
    case PDF =>
      if |doc.value.pages| > 0 {
        chunks := ChunkPDFByPages(doc.value.pages, config);
      } else {
        chunks := ChunkMarkdownWithHeaders(doc.value.content, config);
      }
    case Other =>
      chunks := ChunkByRecursiveSplit(doc.value.content, config);
    case _ =>
      chunks := ChunkMarkdownWithHeaders(doc.value.content, config);
  }

  predicate DifferentIds(chunks: seq<DocumentChunk>) {
    forall i, j :: 0 <= i < j < |chunks| ==> chunks[i].id != chunks[j].id
  }

  /** Whatever the file type, the ids are chunk-1, chunk-2, and so on, all different. */
  lemma IdsInOrder(doc: FileDocument, config: RagChunker.ChunkingConfig)
    ensures NumberedFrom(DocumentChunks(doc, config), 1)
    ensures DifferentIds(DocumentChunks(doc, config))
  {
    var chunks := DocumentChunks(doc, config);
    assert NumberedFrom(chunks, 1);
    forall i, j | 0 <= i < j < |chunks| ensures chunks[i].id != chunks[j].id {
      if chunks[i].id == chunks[j].id {
        IdsAreDistinct(chunks, 1, i, j);
      }
    }
  }

  function Contents(chunks: seq<DocumentChunk>): (r: seq<string>)
    ensures |r| == |chunks| && forall k :: 0 <= k < |r| ==> r[k] == chunks[k].content
  {
    seq(|chunks|, k requires 0 <= k < |chunks| => chunks[k].content)
  }

  /** The pages of a chunk that holds pages. */
  function PagesOf(chunks: seq<DocumentChunk>): (r: seq<seq<nat>>)
    ensures |r| == |chunks|
  {
    seq(|chunks|, k requires 0 <= k < |chunks| => if chunks[k].meta.PageMeta? then chunks[k].meta.pages else [])
  }

  /** The pieces behind the chunks of a document without pages. */
  function TextPieces(doc: FileDocument, config: RagChunker.ChunkingConfig): seq<Cascade.Piece> {
    if doc.fileType == Other then RagChunker.TextPieces(doc.content, config)
    else MarkdownPieces(SPLITTER.Result(doc.content), config)
  }

  /** The chunks of a text hold everything that must be kept, in order, and repeat only what they carry over. */
  lemma TextConserved(doc: FileDocument, config: RagChunker.ChunkingConfig)
    requires config.enabled && !doc.ByPages()
    ensures Contents(DocumentChunks(doc, config)) == Cascade.Texts(TextPieces(doc, config))
    ensures Conserves(TextPieces(doc, config), doc.content, config)
    ensures config.overlapSize == 0 ==> Kept(Concat(Contents(DocumentChunks(doc, config)))) == Kept(doc.content)
  {
    var chunks := DocumentChunks(doc, config);
    if doc.fileType == Other {
      CascadeConserves(doc.content, config);
      assert Contents(chunks) == Cascade.Texts(TextPieces(doc, config));
    } else {
      MarkdownConserves(doc.content, config);
      assert Contents(chunks) == PartTexts(MarkdownParts(SPLITTER.Result(doc.content), config));
    }
    if config.overlapSize == 0 {
      NothingTwice(TextPieces(doc, config), doc.content, config);
    }
  }

  /** The chunks of a paged document name every page once, in order, whatever the overlap. */
  lemma PagesNamed(doc: FileDocument, config: RagChunker.ChunkingConfig)
    requires doc.ByPages()
    ensures Flatten(PagesOf(DocumentChunks(doc, config))) == Numbers(0, |doc.pages|)
  {
    var groups := PageGroups(doc.pages, 0, config.chunkSize, config.overlapSize, []);
    PagesConserved(doc.pages, 0, config.chunkSize, config.overlapSize, []);
    assert PagesOf(DocumentChunks(doc, config)) == groups;
    assert [] + Numbers(0, |doc.pages|) == Numbers(0, |doc.pages|);
  }

  lemma MadeFirst(pages: seq<DocumentPage>, groups: seq<seq<nat>>, overlap: int, id: nat)
    requires NonEmptyPages(groups) && groups != []
    ensures MakeChunks(pages, groups, overlap, id)
      == [MakeChunk(pages, groups[0], overlap, id)] + MakeChunks(pages, groups[1..], overlap, id + 1)
  {
  }

  lemma ContentsFirst(first: DocumentChunk, rest: seq<DocumentChunk>)
    ensures Concat(Contents([first] + rest)) == first.content + Concat(Contents(rest))
  {
    assert Contents([first] + rest) == [first.content] + Contents(rest);
    assert ([first.content] + Contents(rest))[1..] == Contents(rest);
  }

  lemma {:induction false} MadeText(pages: seq<DocumentPage>, groups: seq<seq<nat>>, overlap: int, id: nat)
    requires NonEmptyPages(groups)
    ensures Concat(Contents(MakeChunks(pages, groups, overlap, id))) == AllText(pages, groups, overlap)
    decreases |groups|
  {
    if groups != [] {
      MadeText(pages, groups[1..], overlap, id + 1);
      MadeFirst(pages, groups, overlap, id);
      ContentsFirst(MakeChunk(pages, groups[0], overlap, id), MakeChunks(pages, groups[1..], overlap, id + 1));
    }
  }

  /** Without overlap the chunks of a paged document, put together, are its pages in order, each with its blank line. */
  lemma PagedTextConserved(doc: FileDocument, config: RagChunker.ChunkingConfig)
    requires doc.ByPages() && config.overlapSize <= 0
    ensures Concat(Contents(DocumentChunks(doc, config))) == PagesText(doc.pages, Numbers(0, |doc.pages|))
  {
    var groups := PageGroups(doc.pages, 0, config.chunkSize, config.overlapSize, []);
    PageTextsConserved(doc.pages, config.chunkSize, config.overlapSize);
    MadeText(doc.pages, groups, config.overlapSize, 1);
  }

  lemma {:induction false} PartsHaveHeaders(mds: seq<MdSplitterChunk>, config: RagChunker.ChunkingConfig, part: Part)
    requires part in MarkdownParts(mds, config)
    ensures part.meta.HeaderMeta?
  {
    var j := PartOwner(mds, config, part);
    PartMeta(mds[j], config, part);
  }

  /** Files of an unknown type carry no provenance, PDF files with pages carry page numbers, all others headings. */
  lemma RoutesByType(doc: FileDocument, config: RagChunker.ChunkingConfig, chunk: DocumentChunk)
    requires chunk in DocumentChunks(doc, config)
    ensures chunk.meta.FallbackMeta? <==> doc.fileType == Other
    ensures chunk.meta.PageMeta? <==> doc.fileType == PDF && doc.pages != []
    ensures chunk.meta.HeaderMeta? <==>
      doc.fileType in {DOCX, PPTX, XLSX, TXT, Markdown} || (doc.fileType == PDF && doc.pages == [])
  {
    var chunks := DocumentChunks(doc, config);
    var k :| 0 <= k < |chunks| && chunks[k] == chunk;
    if !doc.ByPages() && doc.fileType != Other {
      var parts := MarkdownParts(SPLITTER.Result(doc.content), config);
      assert chunk.meta == parts[k].meta && parts[k] in parts;
      PartsHaveHeaders(SPLITTER.Result(doc.content), config, parts[k]);
    }
  }
}
