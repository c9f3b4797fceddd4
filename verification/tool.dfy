/** The documentation tool object (graphrag_mcp/documentation_tool.py:25-577). Its connections
    are fixed when it is built: the graph store when the Neo4j driver connected, the vector
    collection when the Qdrant client connected, whether the embedding model loaded, and the
    relevance the vector search ranks by. Each tool method assembles its answer the way the
    source does, row by row, and is proved to return the answer its specification function
    describes. */
module Tool {
  import opened Wrappers
  import opened Seqs
  import opened Text
  import opened Sorting
  import opened Graph
  import opened Vectors
  import opened QueryEngine
  import opened Pages

  class DocumentationTool {
    /** `neo4j_driver`, or None when the connection failed. */
    const graph: Option<Store>
    /** `qdrant_client`'s collection, or None when the connection failed. */
    const vectors: Option<seq<VectorPoint>>
    /** `embedder` is set. */
    const embedderLoaded: bool
    /** The similarity score of a stored point for a query. */
    const relevance: (string, VectorPoint) -> int

    /** `__init__` and `initialize_connections`, with the outcome of each connection given. */
    constructor (graph: Option<Store>, vectors: Option<seq<VectorPoint>>, embedderLoaded: bool,
                 relevance: (string, VectorPoint) -> int)
      ensures this.graph == graph && this.vectors == vectors
      ensures this.embedderLoaded == embedderLoaded && this.relevance == relevance
    {
      this.graph := graph;
      this.vectors := vectors;
      this.embedderLoaded := embedderLoaded;
      this.relevance := relevance;
    }

    /** `search_documentation`: one chunk entry per point the vector search returns. */
    method SearchDocumentation(query: string, limit: nat, docFilter: Option<string>) returns (r: SearchResult)
      ensures r == SearchOf(embedderLoaded, vectors, relevance, query, limit, docFilter)
    {
      r := SearchResult(query, [], 0, "vector_search", docFilter.Some?, docFilter, None);
      if !embedderLoaded || vectors.None? {
        r := r.(error := Some(NotInitialized));
        return;
      }
      var found := VectorSearch(vectors.value, relevance, query, limit, docFilter);
      var chunks := [];
      for i := 0 to |found|
        invariant |chunks| == i
        invariant forall k :: 0 <= k < i ==> chunks[k] == HitOf(found[k], relevance(query, found[k]))
      {
        chunks := chunks + [HitOf(found[i], relevance(query, found[i]))];
      }
      assert chunks == HitsOf(found, relevance, query);
      r := r.(chunks := chunks, count := |chunks|);
    }

    /** `get_intra_document_context` */
    method GetIntraDocumentContext(docId: string, chunkIdx: int) returns (c: Context)
      ensures c == ContextOf(graph, docId, chunkIdx)
    {
      c := Context(docId, chunkIdx, [], [], [], None);
      if graph.None? {
        c := c.(error := Some(NotConnected));
        return;
      }
      var st := graph.value;
      var rec := Single(ChunkPages(st, docId, chunkIdx));
      if rec.None? {
        c := c.(error := Some(ChunkNotFound(docId, chunkIdx)));
        return;
      }
      var pageId := rec.value.id;
      var next := NeighbourList(Take(Successors(st, pageId), 5));
      var previous := NeighbourList(Take(Predecessors(st, pageId), 5));
      var discussing := DiscussionList(TopRelated(st, pageId));
      c := c.(next := next, previous := previous, discussing := discussing);
    }

    /** `hybrid_search`: the search answer, each chunk then expanded with its context. */
    method HybridSearch(query: string, limit: nat, docFilter: Option<string>, expandContext: bool)
      returns (h: HybridResult)
      ensures h == HybridOf(embedderLoaded, vectors, relevance, graph, query, limit, docFilter, expandContext)
    {
      var s := SearchDocumentation(query, limit, docFilter);
      s := s.(searchType := "hybrid_search");
      if !expandContext || s.chunks == [] {
        return HybridResult(s, false, []);
      }
      var expansions := [];
      for i := 0 to |s.chunks|
        invariant |expansions| == i
        invariant forall k :: 0 <= k < i ==>
          expansions[k] == ExpansionOf(ContextOf(graph, s.chunks[k].doc, s.chunks[k].chunkIdx))
      {
        var context := GetIntraDocumentContext(s.chunks[i].doc, s.chunks[i].chunkIdx);
        expansions := expansions + [ExpansionOf(context)];
      }
      h := HybridResult(s, true, expansions);
    }

    /** `get_page_content` */
    method GetPageContent(docId: string, startPage: int, endPage: Option<int>) returns (r: PageContent)
      ensures r == PageContentOf(graph, docId, startPage, endPage)
    {
      var isRange := endPage.Some? && endPage.value != startPage;
      r := PageContent(docId, startPage, if isRange then endPage.value else startPage, None, 0, None, isRange,
                       0, false, None, None, [], None, None);
      if graph.None? {
        r := r.(error := Some(NotConnected));
        return;
      }
      var st := graph.value;
      var pageId, lastPageForNext;
      if isRange {
        var ps := RangePages(st, docId, startPage, endPage.value);
        if ps == [] {
          r := r.(error := Some(NoPagesInRange(startPage, endPage.value, docId)));
          return;
        }
        var sections, total, allPages, firstId, lastId := CombinePages(ps);
        r := r.(content := Some(Join("\n", sections)), wordCount := total, pageRange := Some(allPages),
                pagesRetrieved := |ps|, info := Some(RetrievedInfo(|ps|, startPage, endPage.value)));
        pageId, lastPageForNext := firstId, lastId;
      } else {
        var rec := Single(Containing(st, docId, startPage));
        if rec.None? {
          r := r.(error := Some(PageNotFound(startPage, docId)));
          return;
        }
        var p := rec.value;
        r := r.(content := Some(p.text), wordCount := p.wordCount, pageRange := Some(p.pageRange),
                isMerged := p.isMerged, pagesRetrieved := 1);
        if p.isMerged {
          r := r.(info := Some(MergedInfo(startPage, p.pageRangeStr)));
        }
        pageId, lastPageForNext := p.id, p.id;
      }
      r := r.(nextPage := NavOf(Single(Successors(st, lastPageForNext))));
      r := r.(prevPage := NavOf(Single(Predecessors(st, pageId))));
      var related := RelatedLinkList(TopRelated(st, pageId));
      r := r.(relatedPages := related);
    }

    /** `get_document_info` */
    method GetDocumentInfo(docId: string) returns (r: DocumentInfo)
      ensures r == DocumentInfoOf(graph, docId)
    {
      r := DocumentInfo(docId, [], DocStats(0, 0, 0, 0, 0), None);
      if graph.None? {
        r := r.(error := Some(NotConnected));
        return;
      }
      var st := graph.value;
      var chunks, mergedCount := SummaryList(DocumentChunks(st, docId));
      var next := NextCount(st, DocumentPages(st, docId));
      var related := RelatedCount(st, DocumentPages(st, docId));
      r := r.(chunks := chunks, stats := DocStats(|chunks|, mergedCount, next, related, next + related));
    }

    /** `list_documents` */
    method ListDocuments() returns (r: DocumentList)
      ensures r == ListOf(graph)
    {
      if graph.None? {
        return DocumentList([], 0, Some(NotConnected));
      }
      ByDocIdTotal();
      var rows := SortBy(graph.value.documents, ByDocId);
      var documents := [];
      for i := 0 to |rows|
        invariant documents == rows[..i]
      {
        documents := documents + [rows[i]];
      }
      r := DocumentList(documents, |documents|, None);
    }
  }

  /** The entries of `next_chunks` / `previous_chunks`, one per row. */
  method NeighbourList(ps: seq<PageNode>) returns (r: seq<Neighbour>)
    ensures r == NeighboursOf(ps)
  {
    r := [];
    for i := 0 to |ps|
      invariant |r| == i
      invariant forall k :: 0 <= k < i ==> r[k] == NeighbourOf(ps[k])
    {
      r := r + [NeighbourOf(ps[i])];
    }
  }

  /** The entries of `discussing_chunks`, one per row. */
  method DiscussionList(rows: seq<RelatedRow>) returns (r: seq<Discussion>)
    ensures r == DiscussionsOf(rows)
  {
    r := [];
    for i := 0 to |rows|
      invariant |r| == i
      invariant forall k :: 0 <= k < i ==> r[k] == DiscussionOf(rows[k])
    {
      r := r + [DiscussionOf(rows[i])];
    }
  }

  /** The entries of `related_pages`, one per row. */
  method RelatedLinkList(rows: seq<RelatedRow>) returns (r: seq<RelatedLink>)
    ensures r == RelatedLinksOf(rows)
  {
    r := [];
    for i := 0 to |rows|
      invariant |r| == i
      invariant forall k :: 0 <= k < i ==> r[k] == RelatedLinkOf(rows[k])
    {
      r := r + [RelatedLinkOf(rows[i])];
    }
  }

  /** The loop over the pages of a range request: the content sections, the word count, the
      covered page numbers, and the ids of the first and the last page. */
  method CombinePages(ps: seq<PageNode>)
    returns (sections: seq<string>, total: nat, allPages: seq<int>, firstId: string, lastId: string)
    requires ps != []
    ensures sections == Sections(ps) && total == TotalWords(ps) && allPages == Covered(ps)
    ensures firstId == ps[0].id && lastId == ps[|ps| - 1].id
  {
    sections, total, allPages := [], 0, [];
    firstId, lastId := "", "";
    for i := 0 to |ps|
      invariant sections == Sections(ps[..i]) && total == TotalWords(ps[..i]) && allPages == Covered(ps[..i])
      invariant 0 < i ==> firstId == ps[0].id
      invariant i == |ps| ==> lastId == ps[|ps| - 1].id
    {
      assert ps[..i + 1][..i] == ps[..i];
      if i == 0 {
        firstId := ps[i].id;
      }
      if i == |ps| - 1 {
        lastId := ps[i].id;
      }
      sections := sections + [Header(ps[i]), ps[i].text];
      total := total + ps[i].wordCount;
      allPages := UnionSorted(allPages, ps[i].pageRange);
    }
    assert ps[..|ps|] == ps;
  }

  /** The loop over a document's pages: a summary of each and the number of merged ones. */
  method SummaryList(ps: seq<PageNode>) returns (chunks: seq<ChunkSummary>, mergedCount: nat)
    ensures chunks == SummariesOf(ps) && mergedCount == MergedCount(chunks)
  {
    chunks, mergedCount := [], 0;
    for i := 0 to |ps|
      invariant |chunks| == i
      invariant forall k :: 0 <= k < i ==> chunks[k] == SummaryOf(ps[k])
      invariant mergedCount == MergedCount(chunks)
    {
      var c := SummaryOf(ps[i]);
      assert (chunks + [c])[..|chunks|] == chunks;
      chunks := chunks + [c];
      if ps[i].isMerged {
        mergedCount := mergedCount + 1;
      }
    }
  }
}
