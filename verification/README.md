# Verification of the chunking, caching and retrieval core of fileprocessor

`fileprocessor` turns uploaded files into text chunks, embeds them behind a cache, and searches them with a vector and a
keyword index whose rankings are fused. This project models that core in Dafny and proves what its chunkers keep and how
large their output gets, that the cache agrees with what it speeds up, and what a fused ranking is. Loops of the Go code
are loops here, proved against specification functions; the results about all inputs and all runs are lemmas about those
functions and about step relations.

`dafny verify dfyconfig.toml` checks everything.

## Reading guide

| files | about |
|---|---|
| `Text`, `Greedy`, `Sorting`, `Wrappers` | splitting and joining, optimality of greedy grouping, sorting, result types |
| `Cascade`, `RagChunker`, `CharChunker` | one specification and two implementations of the separator cascade |
| `CascadeProofs`, `CascadeBounds`, `CascadeAgreement` | conservation, size bounds, optimality, and how far the two splitters agree |
| `CascadeLaws`, `MergeLaws` | where a text is cut and how parts are merged, told from the text alone |
| `TokenChunker`, `TokenBudget` | the token-aware line packer, for any tokenizer |
| `MdHeaders`, `HeaderScope`, `HeaderSections`, `MdFences` | the markdown header splitter as a state machine, headings in scope, and which lines are headings |
| `Documents`, `PdfPages`, `PdfLaws`, `MarkdownChunker`, `DocumentChunker` | the chunkers for whole documents, and what PDF chunks hold |
| `RagCache`, `CacheRuns`, `CacheTtl`, `CacheAge` | the embedding cache called by one client and by many clients, its time to live and its eviction |
| `LockDiscipline`, `Deadlocks` | its two locks, and when calls can deadlock |
| `RankFusion`, `Searcher`, `Hydration` | reciprocal-rank fusion, thresholds, hydration |
| `HybridSearch`, `FullPages`, `KeywordOnly` | hybrid search, when its pages are full, and when they hold keyword-only documents |
| `Router`, `FanOut`, `TopK` | the router's fusion, its concurrent fan-out, and how many documents come back |
| `AnswerLaws` | what returned documents show, who found them, and when a search fails |
| `FtsQuery` | the full-text query printer and a reader that undoes it |

Operations are proved against specification functions. What those functions compute is in turn stated without them, from
inputs and outputs alone: in the modules named `...Laws`, in `MdFences`, in `CacheTtl`, and in the contract of `Embed`.

A merged chunk is described as a `Piece`: text carried over from the chunk before it (`tail`), separators (`glue`), and
text not emitted before (`body`). "What must be kept" is a text without white space and without `. ? ! ; ,`, which is what
the splitters may drop at cuts.

Where comments or documentation promise more than the code does, the model follows the code:

* `rag_chunker.go:174` promises pieces no larger than ChunkSize. That holds for all texts exactly when the overlap is zero
  (`CascadeAgreement.SizeHoldsIff`).
* `chunker.go:18-20` and the repository's `README.md:10` say that CharChunker behaves like RAGChunker. Cuts and lengths
  agree (`CascadeAgreement.SplittersCutAlike`); contents agree exactly when every merged segment is a single part or, without
  overlap, has no two neighbouring parts that fit together (`CascadeAgreement.SplittersMatchIff`).
* `chunker.go:48` promises chunks within the token budget. Without overlap that is so exactly when every line is
  (`TokenBudget.BudgetHoldsIff`); with overlap, when the first line is and every other line is behind a line feed
  (`TokenBudget.OverlapBudgetHoldsIff`). Both for monotone tokenizers.
* `chunker.go:107` speaks of the overlap tail; it is the shortest suffix within the budget, and everything when there is none
  (`TokenChunker.TailIsShortest`).
* `rag_cache.go:63` and the repository's `README.md:13` call the eviction LRU. It is by creation time, which is the same
  exactly when entries are used in the order of their creation (`CacheAge.EvictsLeastRecentlyUsedIff`); an entry that was
  just hit can be the one that goes (`CacheAge.JustHitIsEvicted`).
* `rag_chunker.go:105` merges PDF pages "up to ChunkSize". The blank line behind the last page is not counted, so no size
  from two on is kept for all documents (`PdfPages.SizeHoldsIff`).
* `rag_searcher.go:70-71` says that the candidate limit absorbs what thresholds and hydration filter out. Hybrid fusion cuts
  to twice the limit before hydration, so for every limit there is a search that returns nothing although a candidate has a
  chunk (`FullPages.PagesCanStayEmpty`). The answer is always full exactly when the fused scores, the stored chunks and the
  requested files meet a condition that needs no search (`FullPages.EveryPageIsFullIff`).
* `eino_retriever.go:174-197` takes a TopK option and announces it as the limit of the hybrid retriever. The sub-retrievers
  keep it, the fusion of their streams does not: at most TopK documents come back exactly when there is no keyword index or
  the first TopK hits of both kinds that have a chunk have at most TopK different ids (`TopK.AtMostTopKIff`). For every TopK
  there is a search that returns twice as many (`TopK.TwiceTopK`), and none returns more (`TopK.CountIsBounded`).
* `mdsplitter.go:116-133` keeps metadata by name. It is the headings in scope exactly when different headers have different
  names, as the built-in ones do (`HeaderSections.ScopeHoldsIff`, `MarkdownChunker.HeadersAreValid`).

## Model

| member | source | states |
|---|---|---|
| RagChunker.MergeParts | rag_chunker.go:246-282 | the merge loop emits the texts of the greedy grouping of its parts, each chunk written separator-before-part behind the overlap of its predecessor |
| RagChunker.ForceSplitBySize | rag_chunker.go:284-299 | forced cutting emits overlapping windows of the text and terminates for every overlap |
| RagChunker.RecursiveSplit | rag_chunker.go:204-244 | the recursion over separators emits the texts of the plan: whole, forced and merged segments in order |
| RagChunker.ChunkText | rag_chunker.go:176-202 | disabled or empty gives nothing; otherwise the cascade over the shipped separators with defaulted size and overlap |
| CharChunker.MergeParts | chunker.go:166-192 | the other merge loop: same grouping, separator written behind every part after the first |
| CharChunker.ForceSplit | chunker.go:194-209 | the other forced cutter yields the same windows |
| CharChunker.RecursiveSplit | chunker.go:130-164 | the other recursion follows the same plan |
| CharChunker.SplitChars | chunker.go:123-128 | the cascade over the shipped separators for any size and overlap |
| CharChunker.CharChunker.New | chunker.go:27-35 | construction always yields usable options: valid ones are kept, others become 1000 and 200 |
| CharChunker.CharChunker.Chunk | chunker.go:38-40 | a constructed chunker applies the cascade with its own options |
| CascadeLaws.CoarseFirst | rag_chunker.go:190-244 | for both chunkers: a text that is too large is cut at the first separator that occurs, in the order blank line, line feed, full stop, question mark, exclamation mark, semicolon, comma, space; each oversized part is cut as if it were the whole text and the small parts between oversized ones are merged |
| CascadeLaws.OversizedApart | chunker.go:145-163 | whatever surrounds an oversized part: the chunks are those of the parts before it, its own as a whole text, and those of the parts behind it |
| CascadeLaws.NothingToCutAt | rag_chunker.go:204-215 | a text within the size stays whole; without any separator it is cut by force |
| CascadeLaws.BoundaryStays | rag_chunker.go:217-233 | between two parts of which one is oversized the chunks divide: those before hold what must be kept of the parts before, those behind the rest, and nothing is carried over |
| CascadeLaws.NothingAcross | rag_chunker.go:217-233 | so without overlap no chunk holds text from both sides |
| CascadeLaws.DefaultedConfig | rag_chunker.go:181-188 | unusable sizes and overlaps count as 1000 and 200 |
| CascadeLaws.NothingFromNothing | rag_chunker.go:176-180 | no text, a disabled configuration and a size that is not positive and has no default give no chunks |
| MergeLaws.MergeIsGreedy | rag_chunker.go:246-282 | for both chunkers and every overlap: merged parts stay in order, each chunk is its carried text, separators and parts as written there, it was closed only because the next part did not fit, and it fits if it joins parts |
| MergeLaws.RunIsGreedy | chunker.go:147-163 | the same for every run of small parts of a text |
| Cascade.SeparatorsAreValid | rag_chunker.go:190-199 | every shipped separator is non-empty, at most two symbols, ends in white space and holds nothing that must be kept |
| Text.JoinSplit | chunker.go:142-142 | joining a split with its separator gives the text back |
| Text.SplitJoin | chunker.go:142-142 | splitting a join gives the parts back when none holds the first symbol of the separator |
| Text.SplitPart | chunker.go:142-142 | every part of a split is a slice of the text, and none contains the separator |
| Text.TrimSlice | chunker.go:146-146 | trimming takes all white space off both ends and nothing else |
| CascadeProofs.SplitConserves | rag_chunker.go:204-282 | for both splitters, every text, size and overlap: the fresh texts of the chunks, in order, hold exactly what must be kept of the input |
| CascadeProofs.GroupsFlatten | rag_chunker.go:250-281 | grouping neither drops nor reorders a part |
| CascadeBounds.SplitShape | rag_chunker.go:246-299 | every chunk starts with at most `overlap` symbols that end the chunk before it and at most two separators, and is no longer than the bound: `size` without overlap, `size + overlap + 2 * separator` with it |
| CascadeBounds.MergeIsOptimal | rag_chunker.go:246-282 | without overlap no order-preserving grouping of the parts into chunks that fit, or are single parts, has fewer groups |
| Greedy.GreedyIsOptimal | rag_chunker.go:253-281 | a greedy cut into groups needs the fewest groups of all cuts that fit, for any measure of fitting that runs inherit |
| CascadeBounds.ForcedClosedForm | rag_chunker.go:284-299 | forced chunk k is the window of `size` symbols at k times the step, and the last one is the first that reaches the end |
| CascadeAgreement.SplittersCutAlike | chunker.go:130-209 | both splitters return equally many chunks with equal lengths position by position |
| CascadeAgreement.SplittersMatchIff | chunker.go:183-186 | they return the same chunks exactly when every merged segment is a single part or, without overlap, has no two neighbouring parts that fit together |
| CascadeAgreement.NothingJoinedIff | chunker.go:169-191 | greedy merging leaves every part alone and carries nothing over exactly when there is one part or, without overlap, no two neighbours fit together |
| CascadeAgreement.ContentsDiffer | chunker.go:18-20 | a text of four short words that the two chunkers split differently |
| CascadeAgreement.SizeHoldsIff | rag_chunker.go:174-175 | chunks respect the size for all texts exactly when the overlap is zero |
| CascadeAgreement.BoundIsTight | rag_chunker.go:246-282 | for every size and every positive overlap, some text has a chunk of length size + overlap + 4 |
| TokenChunker.OverlapTail | chunker.go:108-119 | the backward scan returns the specified suffix for any tokenizer |
| TokenChunker.TailIsShortest | chunker.go:107-119 | the tail is a non-empty suffix, no shorter one is within the budget, and it is within the budget exactly when some suffix is; when none is, it is the whole text |
| TokenChunker.LinesRejoin | chunker.go:76-84 | the lines with their line feeds are the text again |
| TokenChunker.PackLines | chunker.go:76-104 | the packing loop emits the texts of the packs: overlap tail, then whole lines |
| TokenChunker.TokenChunker.New | chunker.go:57-68 | valid sizes and overlaps and the tokenizer are kept, others become 256 and 50 |
| TokenChunker.TokenChunker.Chunk | chunker.go:71-105 | the packed lines of the content, and nothing without a tokenizer or for an empty content |
| TokenBudget.ContentConserved | chunker.go:71-105 | for any tokenizer the fresh lines of the chunks, put together, are the content |
| TokenBudget.ContentIsProper | chunker.go:71-105 | for any tokenizer each chunk after the first repeats exactly the overlap tail of its predecessor, is within the budget or adds at most one line, and only the last may add no text |
| TokenBudget.ContentClosesLate | chunker.go:80-105 | for every overlap and any tokenizer: a chunk was closed only because the next line did not fit behind it, and every line it took behind its first did fit |
| TokenBudget.PackingIsOptimal | chunker.go:80-105 | without overlap and with a monotone tokenizer no line-aligned split within the budget (single lines excepted) has fewer chunks |
| TokenBudget.BudgetHoldsIff | chunker.go:48-49 | without overlap and with a monotone tokenizer all chunks are within the budget exactly when all lines are |
| TokenBudget.OverlapBudgetHoldsIff | chunker.go:48-105 | with overlap and a monotone tokenizer all chunks are within the budget exactly when the first line is and every other line is behind a line feed; when not even a line feed fits the overlap, exactly when the whole content is |
| TokenBudget.TailOfLine | chunker.go:107-119 | the tail of a closed chunk is one line feed when that fits the overlap, and otherwise the whole chunk |
| TokenBudget.TextLinesRejoin | chunker.go:76-84 | the lines that hold text, put together, are the content |
| TokenBudget.FeedIsLast | chunker.go:76-84 | a line feed is the last symbol of its line |
| TokenBudget.OverlapOverruns | chunker.go:86-97 | a content whose two lines are within the budget and whose overlapping chunks are not |
| TokenBudget.RoomForOverlap | chunker.go:86-97 | for tokenizers that need not be monotone: with a subadditive tokenizer, lines that leave room for the overlap keep every chunk within the budget |
| MdHeaders.MdSplitter.New | mdsplitter.go:30-48 | accepts exactly the configurations with at least one header and only headers made of `#` |
| MdHeaders.MatchIsUnique | mdsplitter.go:103-104 | a line matches at most one header, so the order in which the header map is walked is irrelevant |
| MdHeaders.MdSplitter.FindHeader | mdsplitter.go:102-104 | searching the headers in any order finds the one that matches, or none |
| MdHeaders.MdSplitter.PopRecords | mdsplitter.go:116-125 | the pop loop leaves exactly the shallower records and takes the names of the closed ones out of the map |
| MdHeaders.MdSplitter.EnterHeading | mdsplitter.go:105-136 | a heading closes the open chunk, updates stack and map together and starts the next chunk |
| MdHeaders.MdSplitter.Split | mdsplitter.go:63-152 | the line loop returns a function of text and headers alone: the sections between unfenced headings with the metadata at their ends |
| HeaderScope.StackIsScope | mdsplitter.go:71-132 | at every line the stack holds exactly the unfenced headings with no later one of equal or smaller level, with strictly increasing levels |
| HeaderScope.MetadataIsScope | mdsplitter.go:63-152 | with distinct names the metadata map says exactly what the headings in scope say |
| HeaderSections.ScopeHoldsIff | mdsplitter.go:63-152 | for every accepted configuration, trimming or not: every chunk of every text carries exactly the headings in scope, exactly when different headers have different names |
| HeaderSections.SomeChunkFails | mdsplitter.go:118-133 | for any two headers with one name, a text with a chunk whose metadata misses a heading in scope |
| HeaderSections.ChunkMetadata | mdsplitter.go:105-149 | chunk k carries exactly the headings in scope at the end of its section |
| HeaderSections.SectionsLead | mdsplitter.go:101-149 | only the first line of a section is an unfenced heading, every section but the first starts with one, and each ends before one or at the end |
| HeaderSections.SectionsConsecutive | mdsplitter.go:63-152 | without header trimming the sections cover every line once, in order |
| HeaderSections.SplitIsLossless | mdsplitter.go:63-152 | without header trimming, joining the chunks with line feeds gives the text back |
| HeaderSections.ChunksHoldLines | mdsplitter.go:101-152 | the chunks hold, in order, every line, or with header trimming every line but the headings |
| HeaderSections.ChunkContent | mdsplitter.go:101-152 | the content of a chunk is its section's lines, with header trimming without the heading that leads them |
| MdFences.HeadingIff | mdsplitter.go:73-106 | in every document a line is a heading exactly when it is outside of code fences and, trimmed, a configured header alone or followed by a space |
| MdFences.FenceHides | mdsplitter.go:80-100 | the first line that opens a fence hides every heading up to the next line that starts with the same fence; behind it the document starts anew, and without such a line nothing more is a heading |
| MdFences.PlainHeadingIff | mdsplitter.go:104-106 | before any fence a line is a heading exactly when it is a configured header, alone or followed by a space |
| MdFences.ChunkSays | mdsplitter.go:105-149 | a chunk's metadata holds exactly the text behind each header above the end of the chunk that no later header with as few or fewer hashes closes |
| Documents.IdsAreDistinct | rag_chunker.go:146-149 | different numbers give different chunk ids |
| Documents.DecimalIs | rag_chunker.go:81-81 | chunk numbers are printed in decimal digits without leading zeros |
| MarkdownChunker.HeadersAreValid | rag_chunker.go:54-63 | the built-in headers are accepted and have distinct names, so the error branch is never taken |
| MarkdownChunker.ChunkMarkdownWithHeaders | rag_chunker.go:53-103 | the nested loops emit the parts of every section, numbered from 1 without a gap, with h2, h3 and source |
| MarkdownChunker.ChunkByRecursiveSplit | rag_chunker.go:158-172 | the fallback emits the cascade of the whole text, numbered from 1 |
| MarkdownChunker.MarkdownConserves | rag_chunker.go:53-103 | whatever the overlap, the fresh texts of all sections' chunks hold everything that must be kept, once and in order; chunks start with a short suffix of the one before and separators at most, and stay within the bound |
| MarkdownChunker.NothingTwice | rag_chunker.go:53-103 | without overlap the chunks themselves do |
| MarkdownChunker.MarkdownProvenance | rag_chunker.go:71-100 | every chunk was cut from some section and carries the h2 and h3 in scope at its end |
| MarkdownChunker.TitlesAreCarried | rag_chunker.go:53-100 | an unfenced line that starts with two hashes and a space gives the chunks of its section its text as h2, one with three hashes as h3 |
| MarkdownChunker.LabelsTell | rag_chunker.go:71-100 | the source label says whether a section was too large; one that was not is a single chunk |
| PdfPages.ChunkPDFByPages | rag_chunker.go:106-143 | the page loop emits the greedy page groups with carried-over text, numbered from 1 with their page numbers |
| PdfPages.PagesConserved | rag_chunker.go:112-140 | every page is in exactly one chunk and the pages stay in order, for all overlaps |
| PdfPages.PackingIsOptimal | rag_chunker.go:106-143 | without overlap and with true character counts no order-preserving grouping of the pages that fits has fewer chunks |
| PdfPages.PackedSize | rag_chunker.go:115-115 | with true character counts a chunk of several pages has at most two symbols more than the size |
| PdfPages.PackedSizeIsTight | rag_chunker.go:105-115 | for every size of at least two and every overlap, two pages whose chunk is two symbols larger than the size |
| PdfPages.SizeHoldsIff | rag_chunker.go:105-115 | chunks of several pages stay within the size for all documents and overlaps exactly when the size is below two, where no such chunk exists |
| PdfPages.PageTextsConserved | rag_chunker.go:112-140 | without overlap the chunk texts, put together, are the page texts in order, each with its blank line |
| PdfPages.SinglePageSize | rag_chunker.go:115-134 | a chunk of one page ends with the page and its blank line, behind at most `overlap` symbols and another blank line |
| PdfLaws.ChunkHolds | rag_chunker.go:112-143 | every chunk is: with a positive overlap and a chunk before it, the last `overlap` symbols of that chunk's last page and a blank line; then exactly its own pages, each with a blank line |
| PdfLaws.FreshPagesConserved | rag_chunker.go:112-143 | for every overlap the chunks without what they repeat, put together, are all pages in order |
| PdfLaws.ChunksCloseLate | rag_chunker.go:115-130 | for every overlap a chunk was closed only because the first page of the next one did not fit |
| DocumentChunker.ChunkDocument | rag_chunker.go:33-49 | nothing when disabled or without a document; otherwise the chunker of the file type |
| DocumentChunker.IdsInOrder | rag_chunker.go:33-49 | whichever chunker runs, the ids are chunk-1, chunk-2 and so on, all different |
| DocumentChunker.RoutesByType | rag_chunker.go:38-48 | chunks carry headings for DOCX, PPTX, XLSX, TXT, Markdown and PDF without pages, page numbers for PDF with pages, and neither for every other type |
| DocumentChunker.TextConserved | rag_chunker.go:33-49 | every text route keeps what must be kept, in order, and repeats only what it carries over: nothing without overlap |
| DocumentChunker.PagesNamed | rag_chunker.go:106-155 | the metadata of a paged document names every page once, in order |
| DocumentChunker.PagedTextConserved | rag_chunker.go:33-49 | without overlap the contents of a paged document, put together, are its pages in order |
| RagCache.EvictOldest | rag_cache.go:194-217 | removes the given number of entries, all when there are fewer, none of them younger than an entry that stays |
| CacheAge.EvictsLeastRecentlyUsedIff | rag_cache.go:63-64 | whatever is evicted from a cache, nothing that went was used later than something that stays, exactly when the entries were last used in the order in which they were created |
| CacheAge.JustHitIsEvicted | rag_cache.go:82-136 | from every full cache with a single oldest entry, a hit on that entry followed by one new text evicts it and keeps all the others, which were used before it |
| CacheAge.UsedEntryGoesFirst | rag_cache.go:192-217 | a run from an empty cache of size two in which the only entry that was ever hit is evicted |
| RagCache.InjectiveMeans | rag_cache.go:232-236 | the assumption on the hash is that different texts have different hashes |
| RagCache.EmbeddingCache.constructor | rag_cache.go:64-78 | a new cache is empty, has zero statistics and satisfies the invariant |
| RagCache.EmbeddingCache.LookUp | rag_cache.go:86-108 | the lookup loop fills the results of entries within their time to live and of no others, notes the other texts in order, counts each text once as hit or miss |
| RagCache.EmbeddingCache.Store | rag_cache.go:119-132 | the storing loop fills every hole, stores an entry for every missed text, then evicts down to the maximum |
| RagCache.EmbeddingCache.Embed | rag_cache.go:82-136 | a call returns exactly the wrapped embedder's vectors in input order, duplicates included; it never asks for a text whose entry lives until the call ends, always for one without an entry or whose entry has expired; it counts the asked texts as misses and the others as hits, and fails only when the wrapped embedder does |
| CacheTtl.SecondCallIsFree | rag_cache.go:82-136 | right after a successful call, in time and when all its texts fit beside what was there, a second call for the same texts asks for nothing and succeeds |
| CacheTtl.EntryAfter | rag_cache.go:119-132 | after a call that fits, each of its texts has an entry: a new one if it was asked for, else the one it had |
| CacheTtl.EvictsNoMore | rag_cache.go:130-132 | eviction stops at the maximum |
| RagCache.EmbeddingCache.AsksInOrder | rag_cache.go:105-107 | the texts asked for are those without an answer, each as often as it occurs, in their order |
| RagCache.EmbeddingCache.HitRate | rag_cache.go:158-167 | the rate is between 0 and 1, zero before any traffic, and times the traffic it is the hits |
| CacheRuns.StepInv | rag_cache.go:82-136 | every lookup, inner call, store, eviction, clear and clock step of any client keeps: each entry holds the vector of its text, and every client's results are right so far |
| CacheRuns.HitIff | rag_cache.go:96-107 | among many clients too, the next text is a hit exactly when its entry is within its time to live |
| CacheRuns.EveryCallIsRight | rag_cache.go:82-136 | in every interleaving of any number of clients, a call that returns vectors returns exactly those of the wrapped embedder, in order; the cache is within its maximum whenever nobody stores |
| CacheRuns.NeverStuck | rag_cache.go:82-136 | a call in progress can always take its next step |
| CacheRuns.OnlyInnerFails | rag_cache.go:114-117 | a call fails only when the wrapped embedder failed |
| LockDiscipline.NextInv | rag_cache.go:92-132 | every lock operation of every thread keeps the discipline: what a thread holds agrees with what it still has to release |
| LockDiscipline.NeverStuck | rag_cache.go:92-180 | any number of Embed, HitRate and Clear calls, in any interleaving, never deadlock |
| LockDiscipline.StuckRunMeansCircle | rag_cache.go:147-156 | with Stats as well, a deadlock is always a circle of a snapshot, a lookup and a waiting writer |
| Deadlocks.CanStickIff | rag_cache.go:82-180 | for any set of calls, some interleaving of any number of threads deadlocks exactly when the set has Stats, an Embed that looks something up, and a call that writes: Clear or an Embed that stores |
| Deadlocks.CircleCanStick | rag_cache.go:147-177 | for any such three calls, a run that deadlocks |
| RankFusion.ContributionIsShare | rag_searcher.go:207-226 | in a list without repetitions an id contributes once, for its rank |
| RankFusion.VectorBeatsKeyword | rag_searcher.go:12-16 | a vector-only hit at rank v outscores a keyword-only hit at rank w exactly when 3v < 240 + 7w |
| RankFusion.EightyTwo | rag_searcher.go:12-16 | rank 82 is the last vector rank that beats every keyword-only hit |
| RankFusion.FusionIsMonotone | rag_searcher.go:202-226 | no worse in both lists and better in one, absence counting as worst, means a strictly higher score |
| RankFusion.RankingsAgree | rag_searcher.go:227-234 | two rankings by the same scores hold equal scores position by position |
| RankFusion.NoKeywordOnly | rag_searcher.go:202-243 | a top that is no longer than the number of ids at vector rank 82 or better holds no keyword-only id |
| Searcher.FilterMatchesByScore | rag_searcher.go:189-197 | the loop returns the filtered matches in order |
| Searcher.FilterKeeps | rag_searcher.go:189-197 | a match stays with its multiplicity exactly when it reaches the threshold |
| Searcher.FuseScores | rag_searcher.go:207-226 | the accumulated map has exactly the ids of both lists, each with the sum of what its ranks contribute |
| Searcher.FusedFile | rag_searcher.go:207-226 | a fused match has the file of its first vector hit, or the first file that a keyword hit has if that is none |
| Searcher.FuseRRF | rag_searcher.go:202-243 | the result is a best-first selection of min(limit, n) different ids of the fused map, and no omitted id scores higher |
| Hydration.GetChunksByIDs | pg_file_store.go:465-500 | no ids need no rows, a failing query fails, otherwise the chunks found, in the order of the ids |
| Hydration.AskedInOrder | pg_file_store.go:471-499 | asking a table for the ids of a ranking finds the chunks the whole table has for it, in its order |
| Hydration.AnyOrderAnswers | pg_file_store.go:471-488 | with one row per id a query may yield its rows in any order |
| Hydration.RowOrderIrrelevantIff | pg_file_store.go:481-488 | the order of the database rows is irrelevant exactly when no id has two different rows |
| Hydration.HydrationKeepsOrder | pg_file_store.go:493-499 | fetching and filtering keep exactly the ids with a chunk of a wanted file, in order |
| Hydration.CollectDocuments | rag_searcher.go:149-184 | the loop with its early break returns the first `limit` wanted documents, and one when the limit is not positive |
| Hydration.HydrateChunks | eino_retriever_router.go:131-173 | errors pass through; otherwise the first `limit` hydrated matches with their similarities |
| HybridSearch.SemanticSearch | rag_searcher.go:72-187 | every error in the order in which it is detected, and otherwise the first page of the vector hits or of a fusion of both rankings |
| HybridSearch.AnswerRanked | rag_searcher.go:104-187 | without a keyword index the page of the vector hits; a keyword error is an error; otherwise the page of a fusion cut at twice the limit |
| HybridSearch.HybridAnswerIsRanked | rag_searcher.go:93-187 | hybrid results are at most `limit` different documents of the requested files in the order of falling scores, under their exact fused scores |
| HybridSearch.NothingBetterOmitted | rag_searcher.go:108-187 | no candidate with a chunk of a requested file in the table outscores a returned document without being returned, even when fusion cut it off before the query |
| HybridSearch.PageDescends | rag_searcher.go:122-184 | whatever rows the database yields in whatever order, the hydrated documents are all different and their scores never rise |
| KeywordOnly.KeywordNeverAloneIff | rag_searcher.go:108-119 | `2 * limit` distinct vector hits keep keyword-only documents out of every answer exactly up to a limit of 41 |
| KeywordOnly.StrangerIsReturned | rag_searcher.go:108-119 | for every limit from 42 on, a search with `2 * limit` vector hits that returns a keyword-only document |
| AnswerLaws.AnswerShows | rag_searcher.go:149-184 | over a table every document of every answer shows the last row with its id: the text as content, metadata, kind, index, parent, file and file name each under its own key |
| AnswerLaws.StreamShows | eino_retriever_router.go:131-173 | so does every document of a sub-retriever's stream, without file names |
| AnswerLaws.ReturnedShows | eino_retriever.go:141-217 | and every document that the hybrid retriever returns, whatever the interleaving |
| AnswerLaws.AnswerWasFound | rag_searcher.go:93-124 | every document has a match at or above its index's threshold, 0.15 and 0.3 by default, among the candidates asked for, and there are at most `limit`, 30 by default |
| AnswerLaws.HitScores | rag_searcher.go:124-179 | hits that are not fused score what the last match with their id does |
| AnswerLaws.ErrorsIff | rag_searcher.go:72-113 | each error is returned exactly when everything checked before it is in order |
| FullPages.EveryPageIsFullIff | rag_searcher.go:68-187 | over any table of chunks, whatever way ties are broken: every hybrid answer has `limit` documents exactly when, of the ids that fewer than `2 * limit` others outscore, few enough have no chunk of a requested file, or, of those that every cut keeps, enough have one |
| FullPages.EveryTopKeepsIff | rag_searcher.go:232-242 | every best-first selection keeps a wanted number of ids exactly when a condition on the scores alone holds |
| FullPages.PagesCanStayEmpty | rag_searcher.go:70-71 | for every limit, a search all of whose answers are empty although a candidate above the threshold has a chunk of a requested file in the table |
| Router.TotalWithout | eino_retriever_router.go:197-211 | the sum over the streams does not depend on the order in which the map is walked |
| Router.AddStream | eino_retriever_router.go:197-211 | the inner loop adds the weighted shares of one stream to the scores of all streams before it |
| Router.WeightedRRFFusion | eino_retriever_router.go:181-231 | no streams is an error, one stream comes back unchanged, otherwise every id once under its total, best first, as the last document with that id in some stream |
| Router.WalksAgree | eino_retriever_router.go:181-231 | two fusions of the same streams differ in the order of ties only |
| Router.ShareIs | eino_retriever_router.go:197-211 | in a stream without repetitions an id earns the weight over rank plus K |
| Router.DefaultWeights | eino_retriever_router.go:182-201 | a missing or zero weight counts as one, a K that is not positive as 60 |
| Router.SameScores | eino_retriever_router.go:181-231 | on two rankings with weights 0.7 and 0.3 and K = 60 the router computes the same id-to-score map as `fuseRRF` |
| Router.FusionsAgree | rag_searcher.go:202-243 | so the two results have the same ids and, position by position, equal scores |
| FanOut.NextInv | eino_retriever.go:141-166 | every step keeps each sub-retriever in exactly one place and every message and merged entry true |
| FanOut.SendNeverBlocks | eino_retriever.go:148-154 | the channel has room for every goroutine that still has to send, even after the caller returned |
| FanOut.NeverStuck | eino_retriever.go:156-163 | some step is always possible while the caller waits |
| FanOut.RunsAreBounded | eino_retriever.go:141-166 | no run takes more than three steps per sub-retriever and one more |
| FanOut.EveryInterleaving | eino_retriever.go:141-166 | every complete run fails exactly when some sub-retriever failed, with the error of one that did, and otherwise merges every answer under its name |
| FanOut.ArrivalOrderIrrelevant | eino_retriever.go:156-165 | two complete runs without failures end in fusions that differ in the order of ties only |
| FanOut.RunsEnd | eino_retriever.go:141-166 | every run can be continued to its end |
| TopK.RetrieveByVector | eino_retriever_router.go:25-74 | every error in its order, otherwise the first `limit` hydrated hits above the threshold |
| TopK.RetrieveByKeyword | eino_retriever_router.go:87-126 | the same for the keyword index |
| TopK.AnswerGives | eino_retriever_router.go:131-173 | over a table, a stream has exactly the first `limit` hits that have a chunk, in order |
| TopK.ReturnedCount | eino_retriever.go:141-217 | every complete run returns as many documents as the streams together have different ids, or the one stream there is |
| TopK.OnlyFindsReturn | eino_retriever.go:141-217 | only a search with a query, an embedding and both answers returns documents |
| TopK.AtMostTopKIff | eino_retriever.go:187-197 | a search returns at most `limit` documents exactly when there is no keyword index or the streams together have at most `limit` different ids |
| TopK.CountIsBounded | eino_retriever.go:141-217 | with one stream at most `limit` documents, with two at most `2 * limit` |
| TopK.TwiceTopK | eino_retriever.go:187-197 | for every limit, a search that returns documents, and always `2 * limit` of them |
| FtsQuery.SqliteFTSQuery | sqlite_keyword_index.go:190-202 | the loop, the sort and the join print the sorted quoted words of the query |
| FtsQuery.ReadPrinted | sqlite_keyword_index.go:198-201 | reading OR-joined quoted strings undoes printing for any words: none can end its quotes or pass for an operator (SQLite FTS5 documentation, section 3.1) |
| FtsQuery.PrintedReadsBack | sqlite_keyword_index.go:190-202 | the printed query reads back as exactly the multiset of its words |
| FtsQuery.PrintAlikeIff | sqlite_keyword_index.go:200-201 | two queries print alike exactly when they hold the same words, equally often |
| FtsQuery.PrintedAscends | sqlite_keyword_index.go:198-201 | the quoted words are printed in ascending order, by the first difference |
| FtsQuery.FieldsOfJoin | sqlite_keyword_index.go:191-191 | words without white space, joined by spaces, are the words found again |

## Left out

- TokenBudget.RoomForOverlap: one direction only. It is about tokenizers that need not be monotone; for monotone ones the exact conditions are stated.
- CharChunker.SplitChars: the overlap is not negative, as every constructor guarantees. With a negative one the slice in `chunker.go:206` can start behind the end of the text.
- Router.WeightedRRFFusion: does not say which stream's document is returned for an id that several streams have, because map order decides.
- Searcher.FuseRRF: leaves the order among equal scores open, because the entries are listed in map order before the stable sort.
- RagCache.EvictOldest: leaves the choice among equally old entries open, because the sort is not stable and starts from map order.
- Hydration.GetChunksByIDs: the query is a parameter, the rows it yields; results about whole searches let it answer from a table that does not change meanwhile.
- Text: one symbol per position. Cutting inside a UTF-8 sequence and Unicode white space are not modelled; white space is the ASCII white space of Go's `strings` package.
- The markdown fence rules are those of the code, which are simpler than section 4.5 of CommonMark; conformance is not claimed.
- Floating-point rounding: scores, weights and rates are exact reals; embedding values are never computed with.
- SHA-256 is an arbitrary injective function, the wall clock a value that never goes back, the wrapped embedder a function of each text that may fail as a whole.
- The unsynchronised `hitCount` field: lookups count it, nothing depends on it, and data races on it are not modelled.
- Sharing of slices and pointers: vectors, documents and chunks are values, so a caller that changes a returned vector, or `WithScore` changing a shared document, is not modelled.
- The concurrent model of the cache interleaves single lookups and stores, which is finer than its locks allow; statistics are in the sequential model only.
- Go's runtime: goroutine scheduling is any interleaving, a buffered channel is a bounded queue, and the reader-writer lock keeps new readers out while a writer waits.
- `Warmup`, `Dimension`, `ExpandParentContext`, the callbacks and option constructors, the embedding of the query inside the sub-retrievers: each passes calls or text on.
- SQL statements, connection pools, index creation, tenant guards and the refresh of the SQLite index: their behaviour is the database's.
- HTTP embedders, vision and chat clients, OCR, file loading and extraction, storage, and the orchestration in `processor.go` and `rag_processor.go`.
- Helper methods: some Go functions are split into several methods here so that each loop body has its own contract; the order of effects is unchanged.
