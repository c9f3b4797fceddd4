# graphrag_mcp in Dafny

A model of the documentation search system graphrag_mcp, which has three parts:

- **An indexer** (`index_markdown.py`). It works through the markdown specifications in three phases:
  - It cuts every document into page chunks at standalone `Page N` marker lines, merging pages with fewer than 50 words forward. It also numbers the chunks and their vector points.
  - It writes the points to the vector collection in batches of 50.
  - It creates a Page node per chunk in the graph. It links each Page node to its Document node by CONTAINS, to the next chunk by NEXT_PAGE, and to chunks two to five places further on that share at least three keywords by RELATED_TO.
- **A query tool** (`graphrag_mcp/documentation_tool.py`). It answers over the graph and the vector collection:
  - vector search;
  - neighbourhood (context) queries;
  - hybrid search;
  - page and page-range lookup;
  - document summaries and the document list.
- **A consistency script** (`scripts/check_pages.py`). It reports the page numbers a text's markers give: their count, the distinct ones, the missing ones and the duplicated ones.

The graph database is modelled as an in-memory store, `Graph.Store`. It holds:

- Document and Page nodes;
- CONTAINS, NEXT_PAGE and RELATED_TO relationships, which refer to nodes by their `id` property.

Each Cypher `MATCH` the tool runs is a function that returns the rows of that pattern. The vector collection is a sequence of points with payloads. The ranking by embedding similarity is an abstract integer relevance function that the tool object is built with.

Modules:

| file | module | what |
|---|---|---|
| wrappers.dfy | Wrappers | `Option`, `Result` |
| seqs.dfy | Seqs | flatten, filter, take |
| text.dfy | Text | Python string operations used by the source: `split('\n')`, `join`, `strip`, `split()`, `isalpha`, `lower`, `str(int)` |
| sorting.dfy | Sorting | stable sort by a total preorder (`ORDER BY`), `sorted(set(..))` |
| vectors.dfy | Vectors | vector points and payloads |
| graph.dfy | Graph | graph store and the rows of its `MATCH` patterns |
| segmenter.dfy | Segmenter | `split_by_pages` |
| graph_builder.dfy | GraphBuilder | the indexer's phases 1 to 3 |
| query_engine.dfy | QueryEngine | search, context and hybrid answers |
| pages.dfy | Pages | page content, document info and document list answers |
| tool.dfy | Tool | class `DocumentationTool` and its methods |
| check_pages.dfy | CheckPages | the page-number report |

Code that changes things step by step is modelled as methods with loops:

- the indexer's loops;
- the tool's result-building loops.

Each method is proved equal to a specification function. The properties are lemmas about those functions.

## Model

| member | source | states |
|---|---|---|
| Segmenter.MarkerNumberMeaning | index_markdown.py:60-74 | a line is a page marker exactly when its stripped form is "Page", one or more whitespace characters, then one or more digits; the page number is the value of those digits |
| Segmenter.ExtractRawPages | index_markdown.py:51-87 | the first loop of `split_by_pages` (lines split on newlines, a marker closes the open page and opens a new one starting with the marker line, trailing page closed at the end) returns exactly `RawPagesOf(content)` |
| Segmenter.ClosePage | index_markdown.py:64-71 | saving the open page appends the stripped newline join of its lines with its word count, and drops it when there is no page number or the text is blank |
| Segmenter.MarkerPageNotBlank | index_markdown.py:73-75 | a page opened by a marker line, which starts with that line, never has blank text, so it is never dropped |
| Segmenter.RawPagesFollowMarkers | index_markdown.py:55-87 | the raw page numbers are exactly the marker numbers in text order (each marker starts one page, lines before the first marker are dropped), and every raw page has non-blank stripped text and its whitespace word count |
| Segmenter.NoMarkerNoPages | index_markdown.py:64-87 | a text without a marker line yields no raw page |
| Segmenter.MergePages | index_markdown.py:89-127 | the merge loop returns exactly `MergedChunks(rawPages, minWords)` |
| Segmenter.MergeForward | index_markdown.py:106-125 | the inner loop absorbs the following pages while the running count is below `min_words`; the chunk combines exactly `raw[i..j]`; if it stopped before the end the count reached `min_words`, and without its last page the count was below `min_words` |
| Segmenter.SingleChunk | index_markdown.py:96-104 | a page with at least `min_words` words at the start of a chunk becomes an unmerged chunk of its own with range `[page_num]` |
| Segmenter.GroupsCover | index_markdown.py:93-127 | the runs of raw pages that become chunks, concatenated in order, are the raw pages exactly |
| Segmenter.GroupShape | index_markdown.py:96-117 | each run: a page reaching `min_words` alone stands alone; otherwise pages are absorbed until the count reaches `min_words` or the pages run out |
| Segmenter.GroupsThreshold | index_markdown.py:112 | every chunk but the last has at least `min_words` words, and no chunk absorbs a page it did not need |
| Segmenter.CombinedWords | index_markdown.py:114-115 | the summed word count of a merged chunk equals the number of words of its text joined with blank lines |
| Segmenter.MergedChunksProperties | index_markdown.py:93-127 | over raw pages: the chunks' ranges concatenated are the raw page numbers; each chunk is numbered by its first page, is merged exactly when it has several pages, and counts the words of its text; all but the last reach `min_words` |
| Segmenter.SplitByPages | index_markdown.py:47-129 | `split_by_pages` returns exactly `ChunksOf(content, minWords)` |
| Segmenter.ChunksCoverMarkers | index_markdown.py:47-129 | the chunks' page ranges, concatenated, are the marker numbers in text order (no page skipped or repeated); there are no chunks exactly when there are no markers; the per-chunk facts above hold |
| GraphBuilder.PageRangeStrDash | index_markdown.py:237 | `page_range_str` holds a dash exactly when the chunk covers several pages |
| GraphBuilder.RangeStrRoundTrip | index_markdown.py:237 | reading `page_range_str` back gives the first and the last page of the range |
| GraphBuilder.NodeKey | index_markdown.py:238 | the node id `"<doc>_page_<range>"` starts with the document id and is longer than it plus the `_page_` infix |
| GraphBuilder.NodeKeyInjective | index_markdown.py:237-238 | within a document two chunks get the same node id only when their ranges start and end on the same pages |
| GraphBuilder.PointOf | index_markdown.py:192-203 | a chunk's point carries its point id, its chunk index and its document in the payload |
| GraphBuilder.Numbered | index_markdown.py:166-205 | chunk `k` of a document gets chunk index `k` and point id `firstId + k` |
| GraphBuilder.StatsAppend | index_markdown.py:172-209 | the merged-chunk and merged-page counts add up over concatenated records |
| GraphBuilder.NumberChunks | index_markdown.py:166-205 | the per-document loop returns the numbered records, one point per record, the next point id `firstId + len(chunks)`, and the merged-chunk and merged-page counts |
| GraphBuilder.IndexFile | index_markdown.py:150-205 | one file's chunks numbered on from the running point id, with their points and merge counts |
| GraphBuilder.IndexStep | index_markdown.py:147-209 | one iteration of the file loop extends the indexed state from the first `f` files to the first `f + 1` |
| GraphBuilder.IndexFiles | index_markdown.py:147-209 | the file loop: every document is merged into the store, the records are the numbered chunks of every file, the points have ids 0, 1, 2, ... in record order, and the merge statistics count all records |
| GraphBuilder.IndexChunks | index_markdown.py:138-209 | phase 1 over all files, as `IndexFiles` with every file split by `split_by_pages` |
| GraphBuilder.IndexedDocument | index_markdown.py:147-205 | document `g` is the file's stem with that file's chunks, numbered on from the number of chunks of the files before it, and does not depend on later files |
| GraphBuilder.MergeDocument | index_markdown.py:153-158 | `MERGE ... SET`: every node with the id gets the new source and title, a node is created when there was none, other documents and the rest of the store are unchanged |
| GraphBuilder.MergeFileDocument | index_markdown.py:147-158 | merging the next file's document keeps the documents of the earlier files |
| GraphBuilder.BatchesOfFlatten | index_markdown.py:220-222 | the batches, concatenated, are the points in order |
| GraphBuilder.BatchesOfSizes | index_markdown.py:220-222 | every batch is non-empty and at most `BATCH_SIZE` long, and all but the last are exactly `BATCH_SIZE` |
| GraphBuilder.BatchesOfCount | index_markdown.py:220 | there are `ceil(len(points) / BATCH_SIZE)` batches |
| GraphBuilder.Batches | index_markdown.py:220-222 | the batching loop returns exactly `BatchesOf(points, BATCH_SIZE)` |
| GraphBuilder.RangeCount | index_markdown.py:172-174 | with every chunk merged exactly when it spans several pages, `pages_merged` plus the number of chunks equals the number of covered pages plus the number of merged chunks |
| GraphBuilder.MergeStatsCount | index_markdown.py:161-174 | for a document, `pages_merged` plus the number of unmerged chunks is the number of page markers in its text |
| GraphBuilder.PageNodeOf | index_markdown.py:234-262 | a Page node carries the chunk's id key, chunk index, page number, range, range string, text and merged flag, and a word count recounted from the text |
| GraphBuilder.PageWordCount | index_markdown.py:260 | the recounted word count of every Page node equals the count the segmenter computed |
| GraphBuilder.MergeContains | index_markdown.py:264-269 | `MERGE (d)-[:CONTAINS]->(p)` adds the relationship only when both nodes exist and it is not already there, so no relationship is duplicated |
| GraphBuilder.AddPage | index_markdown.py:239-269 | one iteration: the node is appended to the pages, and the CONTAINS relationship is added as `MERGE` does |
| GraphBuilder.CreatePageNodes | index_markdown.py:234-269 | the page-node loop appends the Page nodes of every chunk in order, and links each to its document when the document exists, without duplicates |
| GraphBuilder.Chain | index_markdown.py:272-285 | the sequential relationships go from each id to the next one, one fewer than there are ids |
| GraphBuilder.MatchedMembers | index_markdown.py:280-285 | a NEXT_PAGE relationship is created exactly when it is offered and `MATCH` finds both its nodes |
| GraphBuilder.MatchedAll | index_markdown.py:280-285 | when every node exists, the whole chain is created |
| GraphBuilder.LinkChain | index_markdown.py:272-285 | the loop over consecutive chunks appends exactly `Matched(pages, Chain(keys))` |
| GraphBuilder.CreateSequentialEdges | index_markdown.py:271-285 | the sequential loop appends, in order, the relationships from every chunk's node to the next chunk's node whose two ends `MATCH` finds; nothing else changes |
| GraphBuilder.KeywordListMembers | index_markdown.py:289-290 | the keywords are exactly the lower-cased alphabetic words of at least 5 characters |
| GraphBuilder.KeywordShape | index_markdown.py:289-290 | every keyword is a lower-case alphabetic word of at least `MIN_WORD_LENGTH` letters |
| GraphBuilder.SharedKeywordsMeans | index_markdown.py:297 | `words1 & words2`: a word is shared exactly when it is a keyword of both texts, each once |
| GraphBuilder.PairsExactly | index_markdown.py:288-299 | the nested window loops visit `(i, j)` exactly when `i + 2 <= j < min(i + 6, n)` and the pair is accepted |
| GraphBuilder.PairsOrdered | index_markdown.py:288-292 | the loops visit every pair at most once |
| GraphBuilder.RelatedKeywordsPicked | index_markdown.py:318 | `list(common_words)[:5]` holds `min(5, len(common))` distinct shared keywords |
| GraphBuilder.SimilarPairsExactly | index_markdown.py:287-320 | chunks `i` and `j` are linked exactly when `j` is two to five chunks after `i`, they share at least 3 keywords and both nodes exist; no pair is linked twice |
| GraphBuilder.SimilarEdgesMeans | index_markdown.py:301-320 | each RELATED_TO relationship goes from the earlier chunk's node to the later one's and carries up to 5 shared keywords and the page distance `page_num2 - page_num1` |
| GraphBuilder.RelatePair | index_markdown.py:293-320 | the inner loop body decides the link by the keyword threshold and node existence, and builds its relationship |
| GraphBuilder.RelateRow | index_markdown.py:292-320 | the inner loop appends exactly the relationships of row `i` |
| GraphBuilder.RelateRows | index_markdown.py:288-320 | the outer loop appends the relationships of every row, in loop order |
| GraphBuilder.CreateSimilarityEdges | index_markdown.py:287-320 | the similarity loop appends exactly `SimilarEdges` to the RELATED_TO relationships; nothing else changes |
| GraphBuilder.DocumentNodesExist | index_markdown.py:240-255 | once a document's Page nodes are created, `MATCH` by the id of any of its chunks finds a node |
| GraphBuilder.SequentialAfterPages | index_markdown.py:271-285 | after the document's Page nodes, every one of the `len(chunks) - 1` sequential relationships finds both its nodes and is created |
| GraphBuilder.SimilarAfterPages | index_markdown.py:288-320 | after the document's Page nodes, chunks `i` and `j` are linked exactly when `i + 2 <= j < min(i + 6, len(chunks))` and they share at least 3 keywords |
| GraphBuilder.LinkDocument | index_markdown.py:231-322 | one pass of the phase-3 loop: the document's Page nodes are appended, exactly one NEXT_PAGE relationship per consecutive pair of chunks, then the RELATED_TO relationships of the window, and the CONTAINS relationships when the document node exists; documents are unchanged |
| GraphBuilder.IndexedRangesNonEmpty | index_markdown.py:161-207 | every chunk phase 1 hands to phase 3 covers at least one page, so `page_range[0]` is defined |
| GraphBuilder.BuildGraph | index_markdown.py:230-322 | phase 3 over every document in order: the store gains exactly every document's Page nodes, NEXT_PAGE and RELATED_TO relationships and CONTAINS relationships, and its documents are unchanged |
| GraphBuilder.NodeKeyDistinct | index_markdown.py:237-238 | ranges that start on different pages get different node ids |
| GraphBuilder.KeysDistinct | index_markdown.py:235-238 | chunks whose ranges together repeat no page get pairwise distinct node ids |
| GraphBuilder.DistinctMarkersDistinctKeys | index_markdown.py:161-238 | when no page marker of a file repeats, the chunks of its document get pairwise distinct node ids |
| Graph.PageExistsMeans | index_markdown.py:280-283 | `MATCH (p:Page {id: $id})` finds a node exactly when some stored page has that id |
| Graph.Successors | graphrag_mcp/documentation_tool.py:201-206 | the rows of `(p1 {id})-[:NEXT_PAGE]->(p2)`: exactly the stored pages a NEXT_PAGE relationship from `id` leads to |
| Graph.Predecessors | graphrag_mcp/documentation_tool.py:216-221 | the rows of `(p1 {id})<-[:NEXT_PAGE]-(p2)`: exactly the stored pages with a NEXT_PAGE relationship to `id` |
| Graph.RelatedFrom | graphrag_mcp/documentation_tool.py:231-238 | the rows of `(p1 {id})-[r:RELATED_TO]->(p2)`: each RELATED_TO relationship leaving `id` with a stored page at its end |
| Graph.DocumentPages | graphrag_mcp/documentation_tool.py:489 | the rows of `(d {id})-[:CONTAINS]->(p)`: exactly the stored pages the document contains, when the document exists (how often each one occurs is stated by `Graph.DocumentPagesCount`) |
| Graph.DocumentPagesCount | graphrag_mcp/documentation_tool.py:489 | each copy of a stored page occurs once for every CONTAINS relationship from the document to its id, and never when the document is not stored |
| QueryEngine.Single | graphrag_mcp/documentation_tool.py:193-194 | `single()` is None exactly when there is no row, and otherwise the first row |
| QueryEngine.Preview | graphrag_mcp/documentation_tool.py:212 | the preview is `'N/A'` for an empty text and otherwise its first `n` characters |
| QueryEngine.TopRelatedMeans | graphrag_mcp/documentation_tool.py:231-238 | `min(5, n)` of the page's n RELATED_TO rows, each kept no more often than it occurs, more shared keywords first, and no row left out shares more keywords than a kept row; all of them when n <= 5 |
| Sorting.TakeSortedTop | graphrag_mcp/documentation_tool.py:236-237 | `ORDER BY ... LIMIT n` keeps `min(n, len)` elements, sorted, each no more often than it occurs, and no element left out ranks above a kept one |
| QueryEngine.VectorSearchMeans | graphrag_mcp/documentation_tool.py:121-142 | the search finds `min(limit, n)` of the n stored points that pass the filter, most relevant first, and no passing point left out is more relevant than a found one; all of them when n <= `limit` |
| QueryEngine.SearchOfShape | graphrag_mcp/documentation_tool.py:104-159 | the query and filter are echoed; `count` is the number of chunks; `filter_applied` says whether a filter was given; without the embedder or the vector client the answer is that error with no chunks |
| QueryEngine.SearchOfHits | graphrag_mcp/documentation_tool.py:144-157 | `min(limit, n)` chunk entries for the n passing points, each a found point's id, payload values with their defaults and its score, the highest score first |
| QueryEngine.ContextErrors | graphrag_mcp/documentation_tool.py:181-196 | the context fails with "Neo4j not connected" without the store and with "Chunk i not found in doc" when no page has that chunk index; otherwise there is no error; on an error every list is empty |
| QueryEngine.ContextBounds | graphrag_mcp/documentation_tool.py:200-238 | every list of a context has at most five entries |
| QueryEngine.ContextFound | graphrag_mcp/documentation_tool.py:188-247 | when the chunk is found, the lists are the neighbourhood of the first page of the document with that chunk index |
| QueryEngine.NextOfMeans | graphrag_mcp/documentation_tool.py:201-213 | the first `min(5, n)` of the n NEXT_PAGE successor rows, in row order, each a page that a NEXT_PAGE relationship leads to |
| QueryEngine.PreviousOfMeans | graphrag_mcp/documentation_tool.py:216-228 | the first `min(5, n)` of the n predecessor rows, in row order, each a page with a NEXT_PAGE relationship to this one |
| QueryEngine.DiscussingOfMeans | graphrag_mcp/documentation_tool.py:231-247 | `min(5, n)` discussing chunks for the n RELATED_TO rows, each the end of such a relationship with its shared keywords and distance, more shared keywords first, none left out sharing more keywords than a kept one |
| QueryEngine.HybridOfShape | graphrag_mcp/documentation_tool.py:269-291 | the hybrid answer is the search answer relabelled `hybrid_search`; it is expanded exactly when expansion was asked for and there are chunks, with one expansion per chunk |
| QueryEngine.HybridExpansions | graphrag_mcp/documentation_tool.py:279-288 | each chunk's expansion is the context of its document and chunk index, at most five entries per list, with the context's error as `context_error` |
| Pages.RangePagesMeans | graphrag_mcp/documentation_tool.py:338-349 | the range pages are the document's pages with some page number in `[start, end]`, each as often as stored, in ascending chunk index |
| Pages.SectionsMeans | graphrag_mcp/documentation_tool.py:363-375 | the combined content alternates a `--- Pages r ---` header and the page text, two sections per page, in page order |
| Pages.TotalWordsPermutation | graphrag_mcp/documentation_tool.py:372 | the total word count does not depend on the order of pages with equal chunk index |
| Pages.CoveredMeans | graphrag_mcp/documentation_tool.py:359-377 | `sorted(list(all_pages))` holds every page number of every retrieved page and nothing else, strictly increasing |
| Pages.CoveredPermutation | graphrag_mcp/documentation_tool.py:373-377 | the covered pages are the same for every order of the same pages |
| Pages.PageContentShape | graphrag_mcp/documentation_tool.py:312-332 | the request is echoed; `is_range` holds exactly when an end different from the start is given; `end_page` is that end or the start; without the store the answer is "Neo4j not connected" |
| Pages.PageContentFound | graphrag_mcp/documentation_tool.py:336-413 | an answer with an error carries no content; one without an error has content, a page range and at least one page retrieved, and has info exactly when it is a range or merged; a range answer is never marked merged |
| Pages.RangeContentMeans | graphrag_mcp/documentation_tool.py:336-453 | a range request fails exactly when no page of the document touches the range (always when the end is before the start); otherwise it returns the joined sections, the total word count, the covered pages, the number of pages and the info message, with navigation from the last page (next) and the first page (previous, related) |
| Pages.SingleContentMeans | graphrag_mcp/documentation_tool.py:385-437 | a single-page request fails exactly when no page of the document covers the page; otherwise it returns the first such page's text, count, range and merged flag, with the merged-pages info exactly when merged, and navigation from that page |
| Pages.NextLinkMeans | graphrag_mcp/documentation_tool.py:416-425 | `next_page` is present exactly when a NEXT_PAGE relationship leads to a stored page, and then names the first one's page number and range |
| Pages.PrevLinkMeans | graphrag_mcp/documentation_tool.py:428-437 | `prev_page` is present exactly when a NEXT_PAGE relationship leads here from a stored page, and then names the first one |
| Pages.RelatedLinksMeans | graphrag_mcp/documentation_tool.py:440-453 | `min(5, n)` related pages for the n RELATED_TO rows, each the end of such a relationship with its shared keywords, more shared keywords first, none left out sharing more keywords than a kept one |
| Pages.DocumentInfoShape | graphrag_mcp/documentation_tool.py:468-533 | without the store the answer is that error with no chunks and zero counts; with it there is no error; the total counts the chunks, the merged count is at most the total, and the total relationships are next plus related |
| Pages.DocumentChunksMeans | graphrag_mcp/documentation_tool.py:488-508 | the chunks are the summaries of the pages the document CONTAINS, each as often as that page is a row (every contained page is summarised), in ascending chunk index, and `merged_chunks` counts the merged ones; an unknown document has no chunks |
| Pages.MergedCountFilter | graphrag_mcp/documentation_tool.py:495-505 | the merged count is the number of merged summaries |
| Pages.ListOfMeans | graphrag_mcp/documentation_tool.py:543-577 | every stored document, each as often as stored, ordered by id, with the total as their number; without the store that error and no documents |
| Tool.DocumentationTool.constructor | graphrag_mcp/documentation_tool.py:28-91 | the tool holds the outcome of each connection and the relevance ranking it is given |
| Tool.DocumentationTool.SearchDocumentation | graphrag_mcp/documentation_tool.py:93-168 | the loop over the found points returns exactly `SearchOf(...)` |
| Tool.DocumentationTool.GetIntraDocumentContext | graphrag_mcp/documentation_tool.py:170-255 | returns exactly `ContextOf(graph, docId, chunkIdx)` |
| Tool.DocumentationTool.HybridSearch | graphrag_mcp/documentation_tool.py:257-296 | the expansion loop returns exactly `HybridOf(...)` |
| Tool.DocumentationTool.GetPageContent | graphrag_mcp/documentation_tool.py:298-464 | returns exactly `PageContentOf(graph, docId, startPage, endPage)` |
| Tool.DocumentationTool.GetDocumentInfo | graphrag_mcp/documentation_tool.py:466-541 | returns exactly `DocumentInfoOf(graph, docId)` |
| Tool.DocumentationTool.ListDocuments | graphrag_mcp/documentation_tool.py:543-577 | the loop over the sorted rows returns exactly `ListOf(graph)` |
| Tool.NeighbourList | graphrag_mcp/documentation_tool.py:207-213 | one neighbour entry per row, in row order |
| Tool.DiscussionList | graphrag_mcp/documentation_tool.py:239-247 | one discussion entry per row, in row order |
| Tool.RelatedLinkList | graphrag_mcp/documentation_tool.py:448-453 | one related-page entry per row, in row order |
| Tool.CombinePages | graphrag_mcp/documentation_tool.py:357-383 | the page loop of a range request returns the sections, the total word count, the covered pages and the ids of the first and last pages |
| Tool.SummaryList | graphrag_mcp/documentation_tool.py:495-508 | one summary per page with a 150-character preview, and the number of merged ones |
| CheckPages.RangeMeans | scripts/check_pages.py:8 | `range(lo, hi)` holds exactly the integers from `lo` to `hi - 1`, increasing |
| CheckPages.CheckMeans | scripts/check_pages.py:5-17 | the check fails exactly when no page number was found; otherwise `count` is the number of occurrences, `unique` is strictly increasing with the same members, and `dups` is `Dups(nums)` |
| CheckPages.CheckMax | scripts/check_pages.py:8-10 | `max(unique)` is a page number found and no page number is larger |
| CheckPages.MissingOfMeans | scripts/check_pages.py:8 | the comprehension keeps, in increasing order, exactly the numbers from 1 to the maximum not in `unique` |
| CheckPages.MissingMeans | scripts/check_pages.py:8 | `missing` is strictly increasing and holds exactly the numbers from 1 to the largest page that were not found |
| CheckPages.MissingCovers | scripts/check_pages.py:7-8 | `unique` and `missing` together cover 1 to the largest page, and no number is in both |
| CheckPages.DistinctMembers | scripts/check_pages.py:16 | the keys of `Counter(nums)` are the numbers found, each once |
| CheckPages.DistinctOrder | scripts/check_pages.py:16 | the keys of the counter come in the order of first occurrence |
| CheckPages.DupsMembers | scripts/check_pages.py:17 | `dups` holds exactly the numbers that occur more than once |
| CheckPages.DupsOrder | scripts/check_pages.py:16-17 | `dups` lists each repeated number once, in the order of first occurrence |

## Left out

- The embedding model, the Qdrant client and the Neo4j driver are external services. They are replaced by:
  - a fixed in-memory store;
  - a point sequence;
  - an abstract integer relevance function.

  Connection set-up (`initialize_connections`), `close`, sessions and transactions are not modelled. The tool's constructor takes the outcome of each connection as a parameter.
- Scores are integers, not floats. Points of equal relevance may come back in any order; the model picks one stable order.
- `ORDER BY` on equal keys leaves the order of the rows open. The model uses a stable sort of the store's order. The lemmas that depend on order state only what every order gives: ascending chunk index, more shared keywords first, and, for range pages, totals and covered pages that are the same for every order.
- QueryEngine.NextOfMeans and QueryEngine.PreviousOfMeans: `LIMIT 5` without `ORDER BY` keeps five rows in an order the database leaves open. The model keeps the first five in store order, so which five is one possible answer among several.
- Python's set iteration order is unspecified, so it is left open. This affects `list(common_words)[:5]` and the keyword sets. GraphBuilder.RelatedKeywordsPicked states only that the stored keywords are `min(5, |common|)` distinct shared keywords.
- Several things are outside the model:
  - exceptions and the `except Exception` paths that copy `str(e)` into `error`;
  - logging and `print` output;
  - the merge percentage printed at the end of indexing;
  - `sys.exit` when no markdown file exists.
- `Path.glob`, `read_text`, sorting the file list, and the regex scan of the file in `scripts/check_pages.py` (lines 1-5) are file I/O and are left out. The model takes the list of files, or the list of numbers found, as a parameter.
- The diagnostics after the report in `scripts/check_pages.py` (lines 9-28) are output only and are left out.
- Three programs are not part of this model: `server.py` (the MCP wrapper), `diagnose_data.py` and `test_graphrag.py`.
- Text handling covers ASCII whitespace, letters and digits. Python's Unicode rules for `split()`, `strip()`, `isalpha()`, `lower()` and `\s`/`\d` are not modelled.
- `limit` is a `nat`. A negative limit, which Qdrant rejects, is not modelled.
- Node text, word counts and keyword lists are never null in the model, so the `or ''`, `or 0` and `or []` fallbacks always take the stored value.
- Tool.DocumentationTool.SearchDocumentation: an empty filter string is modelled as written. `filter_applied` is true but no filter is built (`if doc_filter:`).
- Pages.PageContentFound: as written, a range answer never sets `is_merged`, even when it retrieves merged chunks.
- CheckPages.CheckMeans: the failure for an empty list is the value `NoPageNumbers`, not Python's `ValueError` message from `max()`.
- GraphBuilder.CreatePageNodes: Neo4j's `CREATE` is modelled without node identity. Two chunks with the same id string give two Page nodes with that id, and `MATCH` by id then returns both, as in the database.
- GraphBuilder.CreateSequentialEdges: a relationship is stored once per id pair offered, not once per pair of matching nodes. `MATCH ... MATCH ... CREATE` creates one relationship for every pair of nodes carrying the two ids. When ids repeat within a document, the model therefore stores fewer NEXT_PAGE relationships than the database. This happens with a repeated page marker, or with two ranges that share their first and last pages. The `next_relationships` count and the rows of the neighbourhood queries then differ from the database's. GraphBuilder.DistinctMarkersDistinctKeys shows that the ids do not repeat when no marker of the file repeats.
- GraphBuilder.CreateSimilarityEdges: RELATED_TO relationships are stored once per id pair, with the same consequence as for NEXT_PAGE when ids repeat within a document. This affects `discusses_relationships` and the related-page rows.
- `doc_data` is a dictionary keyed by file stem. The files come from one directory and have distinct names, so their stems are distinct and the model keeps the documents in a sequence in file order.
