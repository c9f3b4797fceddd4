/** The graph the indexer writes and the query engine reads, as an in-memory store: Document
    and Page nodes, CONTAINS, NEXT_PAGE and RELATED_TO relationships. Nodes are identified by
    their `id` property and relationships refer to their end nodes by that id. The functions
    below are the rows of the Cypher `MATCH` patterns the query engine runs. */
module Graph {
  import opened Seqs

  /** A `(:Page)` node: one chunk of a document. */
  datatype PageNode = PageNode(
    id: string, docId: string, pageNum: nat, pageRange: seq<nat>, pageRangeStr: string,
    chunkIdx: nat, text: string, wordCount: nat, isMerged: bool)

  /** A `(:Document)` node. */
  datatype DocumentNode = DocumentNode(id: string, source: string, title: string)

  /** `(from)-[:NEXT_PAGE]->(to)` */
  datatype NextEdge = NextEdge(from: string, to: string)

  /** `(from)-[:RELATED_TO {common_keywords, page_distance}]->(to)` */
  datatype RelatedEdge = RelatedEdge(from: string, to: string, keywords: seq<string>, distance: int)

  /** `(doc)-[:CONTAINS]->(page)` */
  datatype ContainsEdge = ContainsEdge(doc: string, page: string)

  datatype Store = Store(
    documents: seq<DocumentNode>, pages: seq<PageNode>,
    next: seq<NextEdge>, related: seq<RelatedEdge>, contains: seq<ContainsEdge>)

  /** `MATCH (p:Page {id: $id})` */
  function PagesWithId(pages: seq<PageNode>, id: string): (r: seq<PageNode>)
    ensures forall p :: p in r <==> p in pages && p.id == id
  {
    Filter(pages, (p: PageNode) => p.id == id)
  }

  /** Some page in `pages` has the id (`MATCH (p:Page {id: $id})` finds a node). */
  predicate PageExists(pages: seq<PageNode>, id: string)
  {
    pages != [] && (pages[|pages| - 1].id == id || PageExists(pages[..|pages| - 1], id))
  }

  lemma {:induction false} PageExistsMeans(pages: seq<PageNode>, id: string)
    ensures PageExists(pages, id) <==> exists p :: p in pages && p.id == id
  {
    if pages != [] {
      var init := pages[..|pages| - 1];
      PageExistsMeans(init, id);
      assert pages == init + [pages[|pages| - 1]];
    }
  }

  predicate HasPage(st: Store, id: string)
  {
    PageExists(st.pages, id)
  }

  /** The pages at the far end of the NEXT_PAGE edges in `edges` that leave `id` (or, when
      `forward` is false, that enter `id`), edge by edge. */
  function NextEnds(edges: seq<NextEdge>, pages: seq<PageNode>, id: string, forward: bool): (r: seq<PageNode>)
    ensures forall p :: p in r ==> p in pages
    ensures forall p :: p in r <==>
      (p in pages &&
       exists e :: e in edges && (if forward then e.from == id && e.to == p.id else e.to == id && e.from == p.id))
  {
    if edges == [] then []
    else
      var e := edges[|edges| - 1];
      var init := edges[..|edges| - 1];
      assert edges == init + [e];
      var far := if forward then e.to else e.from;
      var near := if forward then e.from else e.to;
      NextEnds(init, pages, id, forward) + (if near == id then PagesWithId(pages, far) else [])
  }

  /** `MATCH (p1:Page {id: $id})-[:NEXT_PAGE]->(p2:Page) RETURN p2` */
  function Successors(st: Store, id: string): (r: seq<PageNode>)
    ensures forall p :: p in r <==>
      (HasPage(st, id) && p in st.pages && exists e :: e in st.next && e.from == id && e.to == p.id)
  {
    if HasPage(st, id) then NextEnds(st.next, st.pages, id, true) else []
  }

  /** `MATCH (p1:Page {id: $id})<-[:NEXT_PAGE]-(p2:Page) RETURN p2` */
  function Predecessors(st: Store, id: string): (r: seq<PageNode>)
    ensures forall p :: p in r <==>
      (HasPage(st, id) && p in st.pages && exists e :: e in st.next && e.to == id && e.from == p.id)
  {
    if HasPage(st, id) then NextEnds(st.next, st.pages, id, false) else []
  }

  /** A RELATED_TO row: the relationship and the page it points to. */
  datatype RelatedRow = RelatedRow(edge: RelatedEdge, page: PageNode)

  function RelatedEnds(edges: seq<RelatedEdge>, pages: seq<PageNode>, id: string): (r: seq<RelatedRow>)
    ensures forall row :: row in r <==>
      (row.edge in edges && row.edge.from == id && row.page in pages && row.page.id == row.edge.to)
  {
    if edges == [] then []
    else
      var e := edges[|edges| - 1];
      var init := edges[..|edges| - 1];
      assert edges == init + [e];
      RelatedEnds(init, pages, id) + (if e.from == id then RowsTo(e, PagesWithId(pages, e.to)) else [])
  }

  function RowsTo(e: RelatedEdge, ps: seq<PageNode>): (r: seq<RelatedRow>)
    ensures |r| == |ps| && forall k :: 0 <= k < |r| ==> r[k] == RelatedRow(e, ps[k])
    ensures forall row :: row in r <==> row.edge == e && row.page in ps
  {
    seq(|ps|, k requires 0 <= k < |ps| => RelatedRow(e, ps[k]))
  }

  /** `MATCH (p1:Page {id: $id})-[r:RELATED_TO]->(p2:Page) RETURN r, p2` */
  function RelatedFrom(st: Store, id: string): (r: seq<RelatedRow>)
    ensures forall row :: row in r <==>
      (HasPage(st, id) && row.edge in st.related && row.edge.from == id &&
       row.page in st.pages && row.page.id == row.edge.to)
  {
    if HasPage(st, id) then RelatedEnds(st.related, st.pages, id) else []
  }

  /** Some document in `docs` has the id. */
  predicate DocumentExists(docs: seq<DocumentNode>, id: string)
  {
    docs != [] && (docs[|docs| - 1].id == id || DocumentExists(docs[..|docs| - 1], id))
  }

  lemma {:induction false} DocumentExistsMeans(docs: seq<DocumentNode>, id: string)
    ensures DocumentExists(docs, id) <==> exists d :: d in docs && d.id == id
  {
    if docs != [] {
      var init := docs[..|docs| - 1];
      DocumentExistsMeans(init, id);
      assert docs == init + [docs[|docs| - 1]];
    }
  }

  predicate HasDocument(st: Store, docId: string)
  {
    DocumentExists(st.documents, docId)
  }

  function ContainsEnds(edges: seq<ContainsEdge>, pages: seq<PageNode>, docId: string): (r: seq<PageNode>)
    ensures forall p :: p in r <==> p in pages && ContainsEdge(docId, p.id) in edges
  {
    if edges == [] then []
    else
      var e := edges[|edges| - 1];
      var init := edges[..|edges| - 1];
      assert edges == init + [e];
      ContainsEnds(init, pages, docId) + (if e.doc == docId then PagesWithId(pages, e.page) else [])
  }

  /** `MATCH (d:Document {id: $doc_id})-[:CONTAINS]->(p:Page) RETURN p` */
  function DocumentPages(st: Store, docId: string): (r: seq<PageNode>)
    ensures forall p :: p in r <==>
      (HasDocument(st, docId) && p in st.pages && ContainsEdge(docId, p.id) in st.contains)
  {
    if HasDocument(st, docId) then ContainsEnds(st.contains, st.pages, docId) else []
  }

  /** Each copy of a stored page is a row once for every CONTAINS relationship from `docId`
      to its id. */
  lemma {:induction false} ContainsEndsCount(edges: seq<ContainsEdge>, pages: seq<PageNode>, docId: string, p: PageNode)
    ensures multiset(ContainsEnds(edges, pages, docId))[p] ==
      multiset(edges)[ContainsEdge(docId, p.id)] * multiset(pages)[p]
  {
    if edges != [] {
      var e := edges[|edges| - 1];
      var init := edges[..|edges| - 1];
      assert edges == init + [e];
      var tail := if e.doc == docId then PagesWithId(pages, e.page) else [];
      assert ContainsEnds(edges, pages, docId) == ContainsEnds(init, pages, docId) + tail;
      ContainsEndsCount(init, pages, docId, p);
      PagesWithIdCount(pages, e.page, p);
      var m := multiset(pages)[p];
      var before := multiset(init)[ContainsEdge(docId, p.id)];
      assert multiset(ContainsEnds(edges, pages, docId))[p] == before * m + multiset(tail)[p];
      if e == ContainsEdge(docId, p.id) {
        assert multiset(tail)[p] == m;
        assert multiset(edges)[ContainsEdge(docId, p.id)] == before + 1;
        MulAddRight(before, 1, m);
      } else {
        assert multiset(tail)[p] == 0;
        assert multiset(edges)[ContainsEdge(docId, p.id)] == before;
      }
    }
  }

  /** `MATCH (p:Page {id: $id})` finds every copy of a page with that id. */
  lemma PagesWithIdCount(pages: seq<PageNode>, id: string, p: PageNode)
    ensures multiset(PagesWithId(pages, id))[p] == if p.id == id then multiset(pages)[p] else 0
  {
    FilterCount(pages, (q: PageNode) => q.id == id, p);
  }

  lemma MulAddRight(a: nat, b: nat, m: nat)
    ensures (a + b) * m == a * m + b * m
  {
  }

  /** The rows of `DocumentPages`: each copy of a stored page once for every CONTAINS
      relationship from the document to its id, and none when the document is not stored
      (so `total_chunks` is the number of such relationships when page ids are distinct). */
  lemma DocumentPagesCount(st: Store, docId: string, p: PageNode)
    ensures multiset(DocumentPages(st, docId))[p] ==
      if HasDocument(st, docId) then multiset(st.contains)[ContainsEdge(docId, p.id)] * multiset(st.pages)[p] else 0
  {
    ContainsEndsCount(st.contains, st.pages, docId, p);
  }

  /** Number of NEXT_PAGE relationships leaving the node `id`. */
  function OutgoingNext(st: Store, id: string): (n: nat)
    ensures n <= |st.next|
  {
    |Filter(st.next, (e: NextEdge) => e.from == id)|
  }

  /** Number of RELATED_TO relationships leaving the node `id`. */
  function OutgoingRelated(st: Store, id: string): (n: nat)
    ensures n <= |st.related|
  {
    |Filter(st.related, (e: RelatedEdge) => e.from == id)|
  }
}
