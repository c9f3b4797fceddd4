/** The query side of the system (graphrag_mcp/documentation_tool.py): the documentation tool
    answers vector searches, neighbourhood queries, page lookups and document summaries over
    the graph store and the vector collection. Every answer is a record of fixed shape whose
    `error` field says what went wrong; nothing is raised. The Cypher queries are the row
    functions of module Graph; `result.single()` is the first row, if any. */
module QueryEngine {
  import opened Wrappers
  import opened Seqs
  import opened Text
  import opened Sorting
  import opened Graph
  import opened Vectors

  // ---------------------------------------------------------------------------
  // Shared pieces
  // ---------------------------------------------------------------------------

  /** `result.single()`: the first row, or None when there is none. */
  function Single<T>(rows: seq<T>): (r: Option<T>)
    ensures r.None? <==> rows == []
    ensures r.Some? ==> r.value == rows[0]
  {
    if rows == [] then None else Some(rows[0])
  }

  /** `text[:n] if text else 'N/A'` */
  function Preview(text: string, n: nat): (r: string)
    ensures text == [] ==> r == "N/A"
    ensures text != [] ==> |r| <= n && |r| <= |text| && r == text[..|r|] && (|text| <= n ==> r == text)
  {
    if text != [] then Take(text, n) else "N/A"
  }

  /** `ORDER BY p.chunk_idx` */
  predicate ByChunkIdx(a: PageNode, b: PageNode)
  {
    a.chunkIdx <= b.chunkIdx
  }

  lemma ByChunkIdxTotal()
    ensures TotalPreorder(ByChunkIdx)
  {
  }

  /** `ORDER BY size(r.common_keywords) DESC` */
  predicate ByKeywordCount(a: RelatedRow, b: RelatedRow)
  {
    |a.edge.keywords| >= |b.edge.keywords|
  }

  lemma ByKeywordCountTotal()
    ensures TotalPreorder(ByKeywordCount)
  {
  }

  /** `MATCH (p1:Page {id: $page_id})-[r:RELATED_TO]->(p2:Page) ... ORDER BY size(r.common_keywords)
      DESC LIMIT 5` */
  function TopRelated(st: Store, id: string): seq<RelatedRow>
  {
    ByKeywordCountTotal();
    Take(SortBy(RelatedFrom(st, id), ByKeywordCount), 5)
  }

  /** Five rows, or all when the page has fewer RELATED_TO relationships: every one such a
      relationship leaving the page `id`, the ones with more shared keywords first, and no
      row left out shares more keywords than a row that was kept. When the page has at most
      five such relationships, all of them are there. */
  lemma TopRelatedMeans(st: Store, id: string)
    ensures |TopRelated(st, id)| <= 5
    ensures forall row :: row in TopRelated(st, id) ==>
      HasPage(st, id) && row.edge in st.related && row.edge.from == id &&
      row.page in st.pages && row.page.id == row.edge.to
    ensures forall i, j :: 0 <= i < j < |TopRelated(st, id)| ==>
      |TopRelated(st, id)[i].edge.keywords| >= |TopRelated(st, id)[j].edge.keywords|
    ensures |RelatedFrom(st, id)| <= 5 ==> multiset(TopRelated(st, id)) == multiset(RelatedFrom(st, id))
    ensures |TopRelated(st, id)| == if |RelatedFrom(st, id)| < 5 then |RelatedFrom(st, id)| else 5
    ensures multiset(TopRelated(st, id)) <= multiset(RelatedFrom(st, id))
    ensures forall x, y :: x in multiset(RelatedFrom(st, id)) - multiset(TopRelated(st, id)) && y in TopRelated(st, id) ==>
      |y.edge.keywords| >= |x.edge.keywords|
  {
    ByKeywordCountTotal();
    var sorted := SortBy(RelatedFrom(st, id), ByKeywordCount);
    var top := TopRelated(st, id);
    assert top == sorted[..|top|];
    forall row | row in top
      ensures row in RelatedFrom(st, id)
    {
      assert row in sorted;
      assert row in multiset(sorted);
    }
    forall i, j | 0 <= i < j < |top|
      ensures |top[i].edge.keywords| >= |top[j].edge.keywords|
    {
      assert top[i] == sorted[i] && top[j] == sorted[j];
      assert ByKeywordCount(sorted[i], sorted[j]);
    }
    if |RelatedFrom(st, id)| <= 5 {
      assert top == sorted;
    }
    TopRelatedTop(st, id);
  }

  /** The kept rows are the top five of the page's RELATED_TO rows by shared keywords. */
  lemma TopRelatedTop(st: Store, id: string)
    ensures |TopRelated(st, id)| == if |RelatedFrom(st, id)| < 5 then |RelatedFrom(st, id)| else 5
    ensures multiset(TopRelated(st, id)) <= multiset(RelatedFrom(st, id))
    ensures forall x, y :: x in multiset(RelatedFrom(st, id)) - multiset(TopRelated(st, id)) && y in TopRelated(st, id) ==>
      |y.edge.keywords| >= |x.edge.keywords|
  {
    ByKeywordCountTotal();
    TakeSortedTop(RelatedFrom(st, id), ByKeywordCount, 5);
  }

  // ---------------------------------------------------------------------------
  // search_documentation (documentation_tool.py:104-168)
  // ---------------------------------------------------------------------------

  /** One entry of `chunks` in a search result. */
  datatype ChunkHit = ChunkHit(
    id: nat, text: string, doc: string, chunkIdx: nat, pageNum: nat, pageRange: seq<nat>,
    isMerged: bool, score: int)

  datatype SearchResult = SearchResult(
    query: string, chunks: seq<ChunkHit>, count: nat, searchType: string,
    filterApplied: bool, filter: Option<string>, error: Option<string>)

  /** `payload.get(key, default)` */
  function GetOr<T>(o: Option<T>, default: T): T
  {
    if o.Some? then o.value else default
  }

  /** A point passes the search filter. The filter on the `doc` payload key is only built
      for a non-empty filter string (`if doc_filter:`). */
  predicate Matches(docFilter: Option<string>, p: VectorPoint)
  {
    docFilter.None? || docFilter.value == [] || p.payload.doc == Some(docFilter.value)
  }

  /** More relevant first, as `query_points` ranks its results. */
  function ByRelevance(relevance: (string, VectorPoint) -> int, query: string): (VectorPoint, VectorPoint) -> bool
  {
    (a: VectorPoint, b: VectorPoint) => relevance(query, a) >= relevance(query, b)
  }

  lemma ByRelevanceTotal(relevance: (string, VectorPoint) -> int, query: string)
    ensures TotalPreorder(ByRelevance(relevance, query))
  {
  }

  /** `query_points(query=encode(query), query_filter=..., limit=limit)`: the `limit` most
      relevant points among those that pass the filter. */
  function VectorSearch(points: seq<VectorPoint>, relevance: (string, VectorPoint) -> int,
                        query: string, limit: nat, docFilter: Option<string>): seq<VectorPoint>
  {
    ByRelevanceTotal(relevance, query);
    Take(SortBy(Passing(points, docFilter), ByRelevance(relevance, query)), limit)
  }

  /** The chunk entry of a found point: payload values, with `''`, `0`, `[]` and `False` for
      missing keys. */
  function HitOf(p: VectorPoint, score: int): ChunkHit
  {
    ChunkHit(p.id, GetOr(p.payload.text, ""), GetOr(p.payload.doc, ""), GetOr(p.payload.chunkIdx, 0),
             GetOr(p.payload.pageNum, 0), GetOr(p.payload.pageRange, []), GetOr(p.payload.isMerged, false),
             score)
  }

  function HitsOf(found: seq<VectorPoint>, relevance: (string, VectorPoint) -> int, query: string): (r: seq<ChunkHit>)
    ensures |r| == |found|
  {
    seq(|found|, k requires 0 <= k < |found| => HitOf(found[k], relevance(query, found[k])))
  }

  const NotInitialized := "Embedder or Qdrant not initialized"

  /** The answer of `search_documentation`. */
  function SearchOf(embedderLoaded: bool, vectors: Option<seq<VectorPoint>>,
                    relevance: (string, VectorPoint) -> int,
                    query: string, limit: nat, docFilter: Option<string>): SearchResult
  {
    var r := SearchResult(query, [], 0, "vector_search", docFilter.Some?, docFilter, None);
    if !embedderLoaded || vectors.None? then r.(error := Some(NotInitialized))
    else
      var hits := HitsOf(VectorSearch(vectors.value, relevance, query, limit, docFilter), relevance, query);
      r.(chunks := hits, count := |hits|)
  }

  /** The points that pass the filter. */
  function Passing(points: seq<VectorPoint>, docFilter: Option<string>): (r: seq<VectorPoint>)
    ensures forall p :: p in r <==> p in points && Matches(docFilter, p)
  {
    Filter(points, (p: VectorPoint) => Matches(docFilter, p))
  }

  /** The vector search finds `limit` points, or all that pass the filter when fewer do: each
      a stored point that passes the filter, the more relevant first, and no passing point left
      out is more relevant than a point found. When at most `limit` points pass, it finds all
      of them. */
  lemma VectorSearchMeans(points: seq<VectorPoint>, relevance: (string, VectorPoint) -> int,
                          query: string, limit: nat, docFilter: Option<string>)
    ensures var found := VectorSearch(points, relevance, query, limit, docFilter);
      && |found| <= limit
      && (forall p :: p in found ==> p in points && Matches(docFilter, p))
      && (forall i, j :: 0 <= i < j < |found| ==> relevance(query, found[i]) >= relevance(query, found[j]))
      && (|Passing(points, docFilter)| <= limit ==> multiset(found) == multiset(Passing(points, docFilter)))
      && |found| == (if |Passing(points, docFilter)| < limit then |Passing(points, docFilter)| else limit)
      && multiset(found) <= multiset(Passing(points, docFilter))
      && (forall x, y :: x in multiset(Passing(points, docFilter)) - multiset(found) && y in found ==>
            relevance(query, y) >= relevance(query, x))
  {
    ByRelevanceTotal(relevance, query);
    var pass := Passing(points, docFilter);
    var sorted := SortBy(pass, ByRelevance(relevance, query));
    var found := VectorSearch(points, relevance, query, limit, docFilter);
    assert found == Take(sorted, limit);
    assert found == sorted[..|found|];
    assert |sorted| == |pass| by {
      assert |multiset(sorted)| == |multiset(pass)|;
    }
    forall p | p in found
      ensures p in points && Matches(docFilter, p)
    {
      assert p in sorted;
      assert p in multiset(sorted);
      assert p in pass;
    }
    forall i, j | 0 <= i < j < |found|
      ensures relevance(query, found[i]) >= relevance(query, found[j])
    {
      assert found[i] == sorted[i] && found[j] == sorted[j];
      assert ByRelevance(relevance, query)(sorted[i], sorted[j]);
    }
    if |pass| <= limit {
      assert found == sorted;
    }
    VectorSearchTop(points, relevance, query, limit, docFilter);
  }

  /** The found points are the `limit` most relevant of those that pass the filter. */
  lemma VectorSearchTop(points: seq<VectorPoint>, relevance: (string, VectorPoint) -> int,
                        query: string, limit: nat, docFilter: Option<string>)
    ensures var found := VectorSearch(points, relevance, query, limit, docFilter);
      && |found| == (if |Passing(points, docFilter)| < limit then |Passing(points, docFilter)| else limit)
      && multiset(found) <= multiset(Passing(points, docFilter))
      && (forall x, y :: x in multiset(Passing(points, docFilter)) - multiset(found) && y in found ==>
            relevance(query, y) >= relevance(query, x))
  {
    ByRelevanceTotal(relevance, query);
    var pass := Passing(points, docFilter);
    var le := ByRelevance(relevance, query);
    var found := VectorSearch(points, relevance, query, limit, docFilter);
    assert found == Take(SortBy(pass, le), limit);
    TakeSortedTop(pass, le, limit);
    forall x, y | x in multiset(pass) - multiset(found) && y in found
      ensures relevance(query, y) >= relevance(query, x)
    {
      assert le(y, x);
    }
  }

  /** The fixed part of a search answer: `count` is the number of chunks and `filter_applied`
      says whether a filter was given. Without the embedder or the vector client the answer is
      that error with no chunk; otherwise there is no error. */
  lemma SearchOfShape(embedderLoaded: bool, vectors: Option<seq<VectorPoint>>,
                      relevance: (string, VectorPoint) -> int,
                      query: string, limit: nat, docFilter: Option<string>)
    ensures var r := SearchOf(embedderLoaded, vectors, relevance, query, limit, docFilter);
      && r.query == query && r.searchType == "vector_search"
      && r.count == |r.chunks|
      && (r.filterApplied <==> docFilter.Some?) && r.filter == docFilter
      && ((!embedderLoaded || vectors.None?) <==> r.error == Some(NotInitialized))
      && ((!embedderLoaded || vectors.None?) <==> r.error.Some?)
      && ((!embedderLoaded || vectors.None?) ==> r.chunks == [])
  {
  }

  /** With the services in place, the chunks are `limit` entries, or one per passing point when
      fewer pass, of stored points that pass the filter (with a non-empty filter, their `doc`
      is the filter), scored by relevance, the highest score first. */
  lemma SearchOfHits(vectors: seq<VectorPoint>, relevance: (string, VectorPoint) -> int,
                     query: string, limit: nat, docFilter: Option<string>)
    ensures var r := SearchOf(true, Some(vectors), relevance, query, limit, docFilter);
      && |r.chunks| <= limit
      && (forall k :: 0 <= k < |r.chunks| ==>
            exists p :: p in vectors && Matches(docFilter, p) && r.chunks[k] == HitOf(p, relevance(query, p)))
      && (docFilter.Some? && docFilter.value != [] ==>
            forall k :: 0 <= k < |r.chunks| ==> r.chunks[k].doc == docFilter.value)
      && (forall i, j :: 0 <= i < j < |r.chunks| ==> r.chunks[i].score >= r.chunks[j].score)
      && (|Passing(vectors, docFilter)| <= limit ==> |r.chunks| == |Passing(vectors, docFilter)|)
      && |r.chunks| == (if |Passing(vectors, docFilter)| < limit then |Passing(vectors, docFilter)| else limit)
  {
    var found := VectorSearch(vectors, relevance, query, limit, docFilter);
    var hits := SearchOf(true, Some(vectors), relevance, query, limit, docFilter).chunks;
    assert hits == HitsOf(found, relevance, query);
    assert |found| == (if |Passing(vectors, docFilter)| < limit then |Passing(vectors, docFilter)| else limit) by {
      VectorSearchTop(vectors, relevance, query, limit, docFilter);
    }
    forall k | 0 <= k < |hits|
      ensures exists p :: p in vectors && Matches(docFilter, p) && hits[k] == HitOf(p, relevance(query, p))
    {
      assert found[k] in found;
      VectorSearchMeans(vectors, relevance, query, limit, docFilter);
    }
    forall k | 0 <= k < |hits| && docFilter.Some? && docFilter.value != []
      ensures hits[k].doc == docFilter.value
    {
      assert found[k] in found;
      VectorSearchMeans(vectors, relevance, query, limit, docFilter);
    }
    forall i, j | 0 <= i < j < |hits|
      ensures hits[i].score >= hits[j].score
    {
      VectorSearchMeans(vectors, relevance, query, limit, docFilter);
    }
  }

  // ---------------------------------------------------------------------------
  // get_intra_document_context (documentation_tool.py:170-255)
  // ---------------------------------------------------------------------------

  /** A sequential neighbour: id, chunk index, page range string and a 200-character preview. */
  datatype Neighbour = Neighbour(id: string, chunkIdx: nat, pageRange: string, text: string)

  /** A related page, with the relationship's shared keywords and page distance. */
  datatype Discussion = Discussion(
    id: string, chunkIdx: nat, pageRange: string, text: string, sharedKeywords: seq<string>, distance: int)

  datatype Context = Context(
    docId: string, chunkIdx: int, next: seq<Neighbour>, discussing: seq<Discussion>,
    previous: seq<Neighbour>, error: Option<string>)

  function NeighbourOf(p: PageNode): Neighbour
  {
    Neighbour(p.id, p.chunkIdx, p.pageRangeStr, Preview(p.text, 200))
  }

  function NeighboursOf(ps: seq<PageNode>): (r: seq<Neighbour>)
    ensures |r| == |ps|
  {
    seq(|ps|, k requires 0 <= k < |ps| => NeighbourOf(ps[k]))
  }

  function DiscussionOf(row: RelatedRow): Discussion
  {
    Discussion(row.page.id, row.page.chunkIdx, row.page.pageRangeStr, Preview(row.page.text, 200),
               row.edge.keywords, row.edge.distance)
  }

  function DiscussionsOf(rows: seq<RelatedRow>): (r: seq<Discussion>)
    ensures |r| == |rows|
  {
    seq(|rows|, k requires 0 <= k < |rows| => DiscussionOf(rows[k]))
  }

  /** `MATCH (p:Page {doc_id: $doc_id, chunk_idx: $chunk_idx})` */
  function ChunkPages(st: Store, docId: string, chunkIdx: int): (r: seq<PageNode>)
    ensures forall p :: p in r <==> p in st.pages && p.docId == docId && p.chunkIdx == chunkIdx
  {
    Filter(st.pages, (p: PageNode) => p.docId == docId && p.chunkIdx == chunkIdx)
  }

  const NotConnected := "Neo4j not connected"

  function ChunkNotFound(docId: string, chunkIdx: int): string
  {
    "Chunk " + IntToString(chunkIdx) + " not found in " + docId
  }

  /** The neighbourhood of the chunk page `p`: at most five successors, five predecessors and
      five related pages. */
  function AroundOf(st: Store, c: Context, p: PageNode): Context
  {
    c.(next := NextOf(st, p.id), previous := PreviousOf(st, p.id), discussing := DiscussingOf(st, p.id))
  }

  /** `MATCH (p1:Page {id: $page_id})-[:NEXT_PAGE]->(p2:Page) ... LIMIT 5` */
  function NextOf(st: Store, id: string): seq<Neighbour>
  {
    NeighboursOf(Take(Successors(st, id), 5))
  }

  /** `MATCH (p1:Page {id: $page_id})<-[:NEXT_PAGE]-(p2:Page) ... LIMIT 5` */
  function PreviousOf(st: Store, id: string): seq<Neighbour>
  {
    NeighboursOf(Take(Predecessors(st, id), 5))
  }

  /** The related pages, more shared keywords first, at most five. */
  function DiscussingOf(st: Store, id: string): seq<Discussion>
  {
    DiscussionsOf(TopRelated(st, id))
  }

  /** The answer of `get_intra_document_context`. */
  function ContextOf(graph: Option<Store>, docId: string, chunkIdx: int): Context
  {
    var c := Context(docId, chunkIdx, [], [], [], None);
    if graph.None? then c.(error := Some(NotConnected))
    else
      var st := graph.value;
      var found := Single(ChunkPages(st, docId, chunkIdx));
      if found.None? then c.(error := Some(ChunkNotFound(docId, chunkIdx)))
      else AroundOf(st, c, found.value)
  }

  /** The error cases of `get_intra_document_context`: without a graph store, and when no page
      of the document has that chunk index; otherwise there is no error. Every list holds at
      most five entries, and all are empty on an error. */
  lemma ContextErrors(graph: Option<Store>, docId: string, chunkIdx: int)
    ensures var c := ContextOf(graph, docId, chunkIdx);
      && c.docId == docId && c.chunkIdx == chunkIdx
      && (graph.None? ==> c.error == Some(NotConnected))
      && (graph.Some? ==>
            (c.error == Some(ChunkNotFound(docId, chunkIdx)) <==>
               !exists p :: p in graph.value.pages && p.docId == docId && p.chunkIdx == chunkIdx))
      && (graph.Some? && (exists p :: p in graph.value.pages && p.docId == docId && p.chunkIdx == chunkIdx) ==>
            c.error.None?)
      && (c.error.Some? ==> c.next == [] && c.previous == [] && c.discussing == [])
  {
    if graph.Some? {
      var rows := ChunkPages(graph.value, docId, chunkIdx);
      if rows != [] {
        assert rows[0] in rows;
      }
    }
  }

  /** Every list of a context holds at most five entries. */
  lemma ContextBounds(graph: Option<Store>, docId: string, chunkIdx: int)
    ensures var c := ContextOf(graph, docId, chunkIdx);
      |c.next| <= 5 && |c.previous| <= 5 && |c.discussing| <= 5
  {
    if graph.Some? {
      var rows := ChunkPages(graph.value, docId, chunkIdx);
      if rows != [] {
        NextOfMeans(graph.value, rows[0].id);
        PreviousOfMeans(graph.value, rows[0]);
        DiscussingOfMeans(graph.value, rows[0].id);
        assert rows[0] in rows;
      }
    }
  }

  /** `q` is a page and a NEXT_PAGE relationship leads to it from the page `id`. */
  ghost predicate SuccessorOf(st: Store, id: string, q: PageNode)
  {
    q in st.pages && exists e :: e in st.next && e.from == id && e.to == q.id
  }

  /** `row` is a RELATED_TO relationship leaving the page `id`, with the page it leads to. */
  ghost predicate RelatedRowOf(st: Store, id: string, row: RelatedRow)
  {
    row.edge in st.related && row.edge.from == id && row.page in st.pages && row.page.id == row.edge.to
  }

  /** When the chunk is found, the lists are the neighbourhood of its page: the first page of
      the document with that chunk index. */
  lemma ContextFound(st: Store, docId: string, chunkIdx: int)
    requires ChunkPages(st, docId, chunkIdx) != []
    ensures var p := ChunkPages(st, docId, chunkIdx)[0];
      var c := ContextOf(Some(st), docId, chunkIdx);
      && p in st.pages && p.docId == docId && p.chunkIdx == chunkIdx
      && c.error.None?
      && c.next == NextOf(st, p.id) && c.previous == PreviousOf(st, p.id) && c.discussing == DiscussingOf(st, p.id)
  {
    assert ChunkPages(st, docId, chunkIdx)[0] in ChunkPages(st, docId, chunkIdx);
  }

  /** The first five successors of the page `id` in row order, or all when it has fewer, each
      a page a NEXT_PAGE relationship leads to from it. */
  lemma NextOfMeans(st: Store, id: string)
    ensures |NextOf(st, id)| <= 5
    ensures forall x :: x in NextOf(st, id) ==> exists q :: SuccessorOf(st, id, q) && x == NeighbourOf(q)
    ensures |Successors(st, id)| <= 5 ==> |NextOf(st, id)| == |Successors(st, id)|
    ensures |NextOf(st, id)| == if |Successors(st, id)| < 5 then |Successors(st, id)| else 5
    ensures forall k :: 0 <= k < |NextOf(st, id)| ==> NextOf(st, id)[k] == NeighbourOf(Successors(st, id)[k])
  {
    var succ := Take(Successors(st, id), 5);
    var n := NextOf(st, id);
    forall x | x in n
      ensures exists q :: SuccessorOf(st, id, q) && x == NeighbourOf(q)
    {
      var k :| 0 <= k < |n| && n[k] == x;
      assert succ[k] in Successors(st, id);
      assert SuccessorOf(st, id, succ[k]);
    }
  }

  /** The first five predecessors of the page `p` in row order, or all when it has fewer, each
      a page with a NEXT_PAGE relationship to it. */
  lemma PreviousOfMeans(st: Store, p: PageNode)
    requires p in st.pages
    ensures |PreviousOf(st, p.id)| <= 5
    ensures forall x :: x in PreviousOf(st, p.id) ==>
      exists q: PageNode :: SuccessorOf(st, q.id, p) && x == NeighbourOf(q)
    ensures |Predecessors(st, p.id)| <= 5 ==> |PreviousOf(st, p.id)| == |Predecessors(st, p.id)|
    ensures |PreviousOf(st, p.id)| == if |Predecessors(st, p.id)| < 5 then |Predecessors(st, p.id)| else 5
    ensures forall k :: 0 <= k < |PreviousOf(st, p.id)| ==>
      PreviousOf(st, p.id)[k] == NeighbourOf(Predecessors(st, p.id)[k])
  {
    var pred := Take(Predecessors(st, p.id), 5);
    var n := PreviousOf(st, p.id);
    forall x | x in n
      ensures exists q: PageNode :: SuccessorOf(st, q.id, p) && x == NeighbourOf(q)
    {
      var k :| 0 <= k < |n| && n[k] == x;
      assert pred[k] in Predecessors(st, p.id);
      assert SuccessorOf(st, pred[k].id, p);
    }
  }

  /** Five related pages of the page `id`, or all when it has fewer, each the end of a
      RELATED_TO relationship leaving it, with that relationship's shared keywords and page
      distance, more shared keywords first; no relationship left out shares more keywords than
      one that was kept. */
  lemma DiscussingOfMeans(st: Store, id: string)
    ensures |DiscussingOf(st, id)| <= 5
    ensures forall x :: x in DiscussingOf(st, id) ==> exists row :: RelatedRowOf(st, id, row) && x == DiscussionOf(row)
    ensures forall i, j :: 0 <= i < j < |DiscussingOf(st, id)| ==>
      |DiscussingOf(st, id)[i].sharedKeywords| >= |DiscussingOf(st, id)[j].sharedKeywords|
    ensures |DiscussingOf(st, id)| == if |RelatedFrom(st, id)| < 5 then |RelatedFrom(st, id)| else 5
    ensures forall row, k ::
      (row in multiset(RelatedFrom(st, id)) - multiset(TopRelated(st, id)) && 0 <= k < |DiscussingOf(st, id)|) ==>
        |DiscussingOf(st, id)[k].sharedKeywords| >= |row.edge.keywords|
  {
    var top := TopRelated(st, id);
    var d := DiscussingOf(st, id);
    assert |d| == |top|;
    assert |top| == if |RelatedFrom(st, id)| < 5 then |RelatedFrom(st, id)| else 5 by {
      TopRelatedTop(st, id);
    }
    forall x | x in d
      ensures exists row :: RelatedRowOf(st, id, row) && x == DiscussionOf(row)
    {
      var k :| 0 <= k < |d| && d[k] == x;
      assert top[k] in top;
      TopRelatedMeans(st, id);
      assert RelatedRowOf(st, id, top[k]);
    }
    forall i, j | 0 <= i < j < |d|
      ensures |d[i].sharedKeywords| >= |d[j].sharedKeywords|
    {
      TopRelatedMeans(st, id);
      assert d[i] == DiscussionOf(top[i]) && d[j] == DiscussionOf(top[j]);
    }
    forall row, k | row in multiset(RelatedFrom(st, id)) - multiset(top) && 0 <= k < |d|
      ensures |d[k].sharedKeywords| >= |row.edge.keywords|
    {
      TopRelatedTop(st, id);
      assert top[k] in top;
    }
  }

  // ---------------------------------------------------------------------------
  // hybrid_search (documentation_tool.py:257-296)
  // ---------------------------------------------------------------------------

  /** The keys `hybrid_search` adds to a chunk entry. */
  datatype Expansion = Expansion(
    relatedNext: seq<Neighbour>, relatedPrevious: seq<Neighbour>, relatedDiscussing: seq<Discussion>,
    contextError: Option<string>)

  /** A hybrid answer: the search answer, whether it was expanded, and, when it was, the
      expansion of every chunk in order. */
  datatype HybridResult = HybridResult(search: SearchResult, expanded: bool, expansions: seq<Expansion>)

  function ExpansionOf(c: Context): Expansion
  {
    Expansion(c.next, c.previous, c.discussing, c.error)
  }

  function ExpansionsOf(graph: Option<Store>, hits: seq<ChunkHit>): (r: seq<Expansion>)
    ensures |r| == |hits|
  {
    seq(|hits|, k requires 0 <= k < |hits| => ExpansionOf(ContextOf(graph, hits[k].doc, hits[k].chunkIdx)))
  }

  /** The answer of `hybrid_search`. */
  function HybridOf(embedderLoaded: bool, vectors: Option<seq<VectorPoint>>,
                    relevance: (string, VectorPoint) -> int, graph: Option<Store>,
                    query: string, limit: nat, docFilter: Option<string>, expandContext: bool): HybridResult
  {
    var s := SearchOf(embedderLoaded, vectors, relevance, query, limit, docFilter).(searchType := "hybrid_search");
    if !expandContext || s.chunks == [] then HybridResult(s, false, [])
    else HybridResult(s, true, ExpansionsOf(graph, s.chunks))
  }

  /** A hybrid answer is the search answer relabelled `hybrid_search`. It is expanded exactly
      when expansion was asked for and there are chunks, and then holds one expansion per
      chunk. */
  lemma HybridOfShape(embedderLoaded: bool, vectors: Option<seq<VectorPoint>>,
                      relevance: (string, VectorPoint) -> int, graph: Option<Store>,
                      query: string, limit: nat, docFilter: Option<string>, expandContext: bool)
    ensures var h := HybridOf(embedderLoaded, vectors, relevance, graph, query, limit, docFilter, expandContext);
      var s := SearchOf(embedderLoaded, vectors, relevance, query, limit, docFilter);
      && h.search == s.(searchType := "hybrid_search")
      && (h.expanded <==> expandContext && s.chunks != [])
      && (h.expanded ==> |h.expansions| == |s.chunks|)
      && (!h.expanded ==> h.expansions == [])
  {
  }

  /** Every expansion is the context of its chunk's document and chunk index, with at most
      five entries in each list and the context's error as `context_error`. */
  lemma HybridExpansions(embedderLoaded: bool, vectors: Option<seq<VectorPoint>>,
                         relevance: (string, VectorPoint) -> int, graph: Option<Store>,
                         query: string, limit: nat, docFilter: Option<string>, expandContext: bool)
    ensures var h := HybridOf(embedderLoaded, vectors, relevance, graph, query, limit, docFilter, expandContext);
      forall k :: 0 <= k < |h.expansions| ==>
        var hit := h.search.chunks[k];
        && h.expansions[k] == ExpansionOf(ContextOf(graph, hit.doc, hit.chunkIdx))
        && |h.expansions[k].relatedNext| <= 5 && |h.expansions[k].relatedPrevious| <= 5
        && |h.expansions[k].relatedDiscussing| <= 5
  {
    var h := HybridOf(embedderLoaded, vectors, relevance, graph, query, limit, docFilter, expandContext);
    forall k | 0 <= k < |h.expansions|
      ensures var hit := h.search.chunks[k];
        && h.expansions[k] == ExpansionOf(ContextOf(graph, hit.doc, hit.chunkIdx))
        && |h.expansions[k].relatedNext| <= 5 && |h.expansions[k].relatedPrevious| <= 5
        && |h.expansions[k].relatedDiscussing| <= 5
    {
      ContextBounds(graph, h.search.chunks[k].doc, h.search.chunks[k].chunkIdx);
    }
  }
}
