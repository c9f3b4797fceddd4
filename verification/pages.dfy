/** Page lookups and document summaries of the documentation tool
    (graphrag_mcp/documentation_tool.py:298-577): `get_page_content`, `get_document_info` and
    `list_documents`, each an answer of fixed shape computed from the graph store. */
module Pages {
  import opened Wrappers
  import opened Seqs
  import opened Text
  import opened Sorting
  import opened Graph
  import opened QueryEngine

  // ---------------------------------------------------------------------------
  // get_page_content (documentation_tool.py:298-464)
  // ---------------------------------------------------------------------------

  /** `next_page` / `prev_page`: the neighbouring chunk's first page and its page range. */
  datatype NavLink = NavLink(pageNum: nat, pageRange: string)

  /** An entry of `related_pages`. */
  datatype RelatedLink = RelatedLink(pageNum: nat, pageRange: string, sharedKeywords: seq<string>)

  /** The answer of `get_page_content`. `info` is absent (None) unless a message was set. */
  datatype PageContent = PageContent(
    docId: string, startPage: int, endPage: int, content: Option<string>, wordCount: nat,
    pageRange: Option<seq<int>>, isRange: bool, pagesRetrieved: nat, isMerged: bool,
    nextPage: Option<NavLink>, prevPage: Option<NavLink>, relatedPages: seq<RelatedLink>,
    error: Option<string>, info: Option<string>)

  /** `end_page is not None and end_page != start_page` */
  predicate IsRangeRequest(startPage: int, endPage: Option<int>)
  {
    endPage.Some? && endPage.value != startPage
  }

  /** `ANY(page IN p.page_range WHERE page >= $start_page AND page <= $end_page)` */
  predicate Covers(p: PageNode, startPage: int, endPage: int)
  {
    exists page :: page in p.pageRange && startPage <= page <= endPage
  }

  /** `MATCH (p:Page {doc_id: $doc_id}) WHERE ANY(...)`, in store order. */
  function InRange(st: Store, docId: string, startPage: int, endPage: int): (r: seq<PageNode>)
    ensures forall p :: p in r <==> p in st.pages && p.docId == docId && Covers(p, startPage, endPage)
  {
    Filter(st.pages, (p: PageNode) => p.docId == docId && Covers(p, startPage, endPage))
  }

  /** The pages of a range request, `ORDER BY p.chunk_idx`. */
  function RangePages(st: Store, docId: string, startPage: int, endPage: int): seq<PageNode>
  {
    ByChunkIdxTotal();
    SortBy(InRange(st, docId, startPage, endPage), ByChunkIdx)
  }

  /** The range pages are the pages of the document with a page number in the range, each as
      often as it is stored, in ascending chunk order. */
  lemma RangePagesMeans(st: Store, docId: string, startPage: int, endPage: int)
    ensures var ps := RangePages(st, docId, startPage, endPage);
      && multiset(ps) == multiset(InRange(st, docId, startPage, endPage))
      && (forall p :: p in ps <==> p in st.pages && p.docId == docId && Covers(p, startPage, endPage))
      && (forall i, j :: 0 <= i < j < |ps| ==> ps[i].chunkIdx <= ps[j].chunkIdx)
  {
    ByChunkIdxTotal();
    var ps := RangePages(st, docId, startPage, endPage);
    var all := InRange(st, docId, startPage, endPage);
    forall p
      ensures p in ps <==> p in all
    {
      assert p in ps <==> p in multiset(ps);
      assert p in all <==> p in multiset(all);
    }
    forall i, j | 0 <= i < j < |ps|
      ensures ps[i].chunkIdx <= ps[j].chunkIdx
    {
      assert ByChunkIdx(ps[i], ps[j]);
    }
  }

  /** `MATCH (p:Page {doc_id: $doc_id}) WHERE $start_page IN p.page_range`, in store order. */
  function Containing(st: Store, docId: string, page: int): (r: seq<PageNode>)
    ensures forall p :: p in r <==> p in st.pages && p.docId == docId && page in p.pageRange
  {
    Filter(st.pages, (p: PageNode) => p.docId == docId && page in p.pageRange)
  }

  /** The separator line before each page's text in a range answer. */
  function Header(p: PageNode): string
  {
    "\n--- Pages " + p.pageRangeStr + " ---\n"
  }

  /** `combined_content`: a header and the text of every page, in order. */
  function Sections(ps: seq<PageNode>): seq<string>
  {
    if ps == [] then []
    else Sections(ps[..|ps| - 1]) + [Header(ps[|ps| - 1]), ps[|ps| - 1].text]
  }

  /** The sections alternate headers and texts: two for each page, in page order. */
  lemma {:induction false} SectionsMeans(ps: seq<PageNode>)
    ensures |Sections(ps)| == 2 * |ps|
    ensures forall k :: 0 <= k < |ps| ==> Sections(ps)[2 * k] == Header(ps[k]) && Sections(ps)[2 * k + 1] == ps[k].text
  {
    if ps != [] {
      var init := ps[..|ps| - 1];
      SectionsMeans(init);
      forall k | 0 <= k < |ps|
        ensures Sections(ps)[2 * k] == Header(ps[k]) && Sections(ps)[2 * k + 1] == ps[k].text
      {
        if k < |init| {
          assert ps[k] == init[k];
        }
      }
    }
  }

  /** `total_word_count`: the sum of the pages' word counts. */
  function TotalWords(ps: seq<PageNode>): nat
  {
    if ps == [] then 0 else TotalWords(ps[..|ps| - 1]) + ps[|ps| - 1].wordCount
  }

  lemma {:induction false} TotalWordsAppend(a: seq<PageNode>, b: seq<PageNode>)
    ensures TotalWords(a + b) == TotalWords(a) + TotalWords(b)
    decreases |b|
  {
    if b == [] {
      assert a + b == a;
    } else {
      assert (a + b)[..|a + b| - 1] == a + b[..|b| - 1];
      TotalWordsAppend(a, b[..|b| - 1]);
    }
  }

  /** Taking one page out of a list takes its word count off the total. */
  lemma TotalWordsRemove(b: seq<PageNode>, k: nat)
    requires k < |b|
    ensures TotalWords(b) == TotalWords(b[..k] + b[k + 1..]) + b[k].wordCount
  {
    var pre, x, post := b[..k], b[k], b[k + 1..];
    assert b == (pre + [x]) + post;
    TotalWordsAppend(pre + [x], post);
    TotalWordsAppend(pre, [x]);
    TotalWordsAppend(pre, post);
    TotalWordsOne(x);
  }

  lemma TotalWordsOne(x: PageNode)
    ensures TotalWords([x]) == x.wordCount
  {
    assert [x][..0] == [];
  }

  /** Taking the same element out of two permutations leaves two permutations. */
  lemma MultisetRemove<T>(a: seq<T>, b: seq<T>, k: nat)
    requires multiset(a) == multiset(b) && a != [] && k < |b| && b[k] == a[|a| - 1]
    ensures multiset(a[..|a| - 1]) == multiset(b[..k] + b[k + 1..])
  {
    var x := a[|a| - 1];
    assert a == a[..|a| - 1] + [x];
    assert b == b[..k] + [x] + b[k + 1..];
    assert multiset(a[..|a| - 1]) == multiset(a) - multiset{x};
    assert multiset(b[..k] + b[k + 1..]) == multiset(b) - multiset{x};
  }

  /** The total does not depend on the order of the pages: whatever order `ORDER BY` leaves
      pages with equal chunk indices in, the word count is the same. */
  lemma {:induction false} TotalWordsPermutation(a: seq<PageNode>, b: seq<PageNode>)
    requires multiset(a) == multiset(b)
    ensures TotalWords(a) == TotalWords(b)
    decreases |a|
  {
    if a != [] {
      var x := a[|a| - 1];
      assert x in multiset(b);
      var k :| 0 <= k < |b| && b[k] == x;
      MultisetRemove(a, b, k);
      TotalWordsPermutation(a[..|a| - 1], b[..k] + b[k + 1..]);
      TotalWordsRemove(b, k);
    } else {
      assert |multiset(b)| == 0;
    }
  }

  /** `sorted(list(all_pages))` after `all_pages.update(rec['page_range'])` for every page. */
  function Covered(ps: seq<PageNode>): (r: seq<int>)
    ensures StrictlyIncreasing(r)
  {
    if ps == [] then [] else UnionSorted(Covered(ps[..|ps| - 1]), ps[|ps| - 1].pageRange)
  }

  /** The page range of a range answer holds every page number of every retrieved page, and
      nothing else; being strictly increasing, it is the only such sequence. */
  lemma {:induction false} CoveredMeans(ps: seq<PageNode>)
    ensures forall y :: y in Covered(ps) <==> exists p :: p in ps && y in p.pageRange
  {
    if ps != [] {
      var init := ps[..|ps| - 1];
      var last := ps[|ps| - 1];
      CoveredMeans(init);
      assert ps == init + [last];
      forall y | y in Covered(ps)
        ensures exists p :: p in ps && y in p.pageRange
      {
        if y !in last.pageRange {
          assert y in Covered(init);
        }
      }
    }
  }

  /** The covered page numbers of two orderings of the same pages are equal. */
  lemma CoveredPermutation(a: seq<PageNode>, b: seq<PageNode>)
    requires multiset(a) == multiset(b)
    ensures Covered(a) == Covered(b)
  {
    CoveredMeans(a);
    CoveredMeans(b);
    forall p
      ensures p in a <==> p in b
    {
      assert p in a <==> p in multiset(a);
      assert p in b <==> p in multiset(b);
    }
    StrictlyIncreasingUnique(Covered(a), Covered(b));
  }

  function NoPagesInRange(startPage: int, endPage: int, docId: string): string
  {
    "No pages found in range " + IntToString(startPage) + "-" + IntToString(endPage) + " in " + docId
  }

  function PageNotFound(page: int, docId: string): string
  {
    "Page " + IntToString(page) + " not found in " + docId
  }

  function RetrievedInfo(count: nat, startPage: int, endPage: int): string
  {
    "Retrieved " + IntToString(count) + " page chunk(s) covering pages " + IntToString(startPage) + "-" +
    IntToString(endPage)
  }

  function MergedInfo(page: int, pageRangeStr: string): string
  {
    "Page " + IntToString(page) + " is part of merged pages " + pageRangeStr
  }

  function NavOf(p: Option<PageNode>): (r: Option<NavLink>)
  {
    if p.None? then None else Some(NavLink(p.value.pageNum, p.value.pageRangeStr))
  }

  /** `next_page`: the first row of `MATCH (p1:Page {id: $page_id})-[:NEXT_PAGE]->(p2:Page)`. */
  function NextLink(st: Store, id: string): Option<NavLink>
  {
    NavOf(Single(Successors(st, id)))
  }

  /** `prev_page`: the first row of `MATCH (p1:Page {id: $page_id})<-[:NEXT_PAGE]-(p2:Page)`. */
  function PrevLink(st: Store, id: string): Option<NavLink>
  {
    NavOf(Single(Predecessors(st, id)))
  }

  function RelatedLinkOf(row: RelatedRow): RelatedLink
  {
    RelatedLink(row.page.pageNum, row.page.pageRangeStr, row.edge.keywords)
  }

  function RelatedLinksOf(rows: seq<RelatedRow>): (r: seq<RelatedLink>)
    ensures |r| == |rows|
  {
    seq(|rows|, k requires 0 <= k < |rows| => RelatedLinkOf(rows[k]))
  }

  /** `related_pages`: at most five related pages, more shared keywords first. */
  function RelatedLinks(st: Store, id: string): seq<RelatedLink>
  {
    RelatedLinksOf(TopRelated(st, id))
  }

  /** Navigation from a retrieved chunk: the page after `lastId`, the page before `firstId`
      and the pages related to `firstId`. */
  function Navigated(st: Store, r: PageContent, firstId: string, lastId: string): PageContent
  {
    r.(nextPage := NextLink(st, lastId), prevPage := PrevLink(st, firstId), relatedPages := RelatedLinks(st, firstId))
  }

  /** The answer to a range request, once the store is there. */
  function RangeContent(st: Store, r: PageContent, docId: string, startPage: int, endPage: int): PageContent
  {
    var ps := RangePages(st, docId, startPage, endPage);
    if ps == [] then r.(error := Some(NoPagesInRange(startPage, endPage, docId)))
    else
      var filled := r.(content := Some(Join("\n", Sections(ps))), wordCount := TotalWords(ps),
                       pageRange := Some(Covered(ps)), pagesRetrieved := |ps|,
                       info := Some(RetrievedInfo(|ps|, startPage, endPage)));
      Navigated(st, filled, ps[0].id, ps[|ps| - 1].id)
  }

  /** The answer to a single-page request, once the store is there. */
  function SingleContent(st: Store, r: PageContent, docId: string, page: int): PageContent
  {
    var found := Single(Containing(st, docId, page));
    if found.None? then r.(error := Some(PageNotFound(page, docId)))
    else
      var p := found.value;
      var filled := r.(content := Some(p.text), wordCount := p.wordCount, pageRange := Some(p.pageRange),
                       isMerged := p.isMerged, pagesRetrieved := 1,
                       info := if p.isMerged then Some(MergedInfo(page, p.pageRangeStr)) else None);
      Navigated(st, filled, p.id, p.id)
  }

  /** The answer before any lookup: the request echoed, nothing found. */
  function EmptyContent(docId: string, startPage: int, endPage: Option<int>): PageContent
  {
    var isRange := IsRangeRequest(startPage, endPage);
    PageContent(docId, startPage, if isRange then endPage.value else startPage, None, 0, None, isRange,
                0, false, None, None, [], None, None)
  }

  /** The answer of `get_page_content`. */
  function PageContentOf(graph: Option<Store>, docId: string, startPage: int, endPage: Option<int>): PageContent
  {
    var r := EmptyContent(docId, startPage, endPage);
    if graph.None? then r.(error := Some(NotConnected))
    else if r.isRange then RangeContent(graph.value, r, docId, startPage, endPage.value)
    else SingleContent(graph.value, r, docId, startPage)
  }

  /** The request is echoed: `end_page` is the end of a range request and `start_page`
      otherwise, and `is_range` holds exactly when an end different from the start was given.
      Without the store the answer is that error. */
  lemma PageContentShape(graph: Option<Store>, docId: string, startPage: int, endPage: Option<int>)
    ensures var r := PageContentOf(graph, docId, startPage, endPage);
      && r.docId == docId && r.startPage == startPage
      && (r.isRange <==> endPage.Some? && endPage.value != startPage)
      && r.endPage == (if r.isRange then endPage.value else startPage)
      && (graph.None? ==> r.error == Some(NotConnected))
  {
  }

  /** An answer with an error carries nothing found, and one without an error carries content
      from at least one page; a range answer is never marked merged. */
  lemma PageContentFound(graph: Option<Store>, docId: string, startPage: int, endPage: Option<int>)
    ensures var r := PageContentOf(graph, docId, startPage, endPage);
      && (r.error.Some? ==>
            r.content.None? && r.wordCount == 0 && r.pageRange.None? && r.pagesRetrieved == 0 &&
            r.nextPage.None? && r.prevPage.None? && r.relatedPages == [] && r.info.None?)
      && (r.error.None? ==> r.content.Some? && r.pageRange.Some? && r.pagesRetrieved >= 1 && r.info.Some? == (r.isRange || r.isMerged))
      && (r.isRange ==> !r.isMerged)
  {
    if graph.Some? {
      var st := graph.value;
      var e := EmptyContent(docId, startPage, endPage);
      if e.isRange {
        var ps := RangePages(st, docId, startPage, endPage.value);
        assert PageContentOf(graph, docId, startPage, endPage) == RangeContent(st, e, docId, startPage, endPage.value);
      } else {
        assert PageContentOf(graph, docId, startPage, endPage) == SingleContent(st, e, docId, startPage);
      }
    }
  }

  /** A range request fails exactly when no page of the document has a page number in the
      range (so always when the end is before the start). Otherwise the answer holds, in
      chunk order, every such page: its content joins a header and the text of each, the word
      count is their total, the page range is every page number they cover, in increasing
      order, and navigation starts from the first and ends at the last of them. */
  lemma RangeContentMeans(st: Store, docId: string, startPage: int, endPage: int)
    requires endPage != startPage
    ensures var r := PageContentOf(Some(st), docId, startPage, Some(endPage));
      var ps := RangePages(st, docId, startPage, endPage);
      && (r.error == Some(NoPagesInRange(startPage, endPage, docId)) <==>
            !exists p :: p in st.pages && p.docId == docId && Covers(p, startPage, endPage))
      && (endPage < startPage ==> r.error.Some?)
      && (r.error.None? ==>
            && ps != []
            && r.content == Some(Join("\n", Sections(ps)))
            && r.pagesRetrieved == |ps|
            && r.wordCount == TotalWords(InRange(st, docId, startPage, endPage))
            && r.pageRange == Some(Covered(InRange(st, docId, startPage, endPage)))
            && r.info == Some(RetrievedInfo(|ps|, startPage, endPage))
            && r.nextPage == NextLink(st, ps[|ps| - 1].id)
            && r.prevPage == PrevLink(st, ps[0].id)
            && r.relatedPages == RelatedLinks(st, ps[0].id))
  {
    var ps := RangePages(st, docId, startPage, endPage);
    RangePagesMeans(st, docId, startPage, endPage);
    if ps != [] {
      assert ps[0] in ps;
      TotalWordsPermutation(ps, InRange(st, docId, startPage, endPage));
      CoveredPermutation(ps, InRange(st, docId, startPage, endPage));
    }
    if endPage < startPage {
      assert forall p :: !Covers(p, startPage, endPage);
    }
  }

  /** A single-page request fails exactly when no page of the document covers the page
      number. Otherwise the answer is that of the first such page: its text, word count, page
      range and merge flag, with a message naming the merged range when it is merged. */
  lemma SingleContentMeans(st: Store, docId: string, page: int)
    ensures var r := PageContentOf(Some(st), docId, page, None);
      && r == PageContentOf(Some(st), docId, page, Some(page))
      && (r.error == Some(PageNotFound(page, docId)) <==>
            !exists p :: p in st.pages && p.docId == docId && page in p.pageRange)
      && (r.error.None? ==>
            var p := Containing(st, docId, page)[0];
            && p in st.pages && p.docId == docId && page in p.pageRange
            && r.content == Some(p.text) && r.wordCount == p.wordCount
            && r.pageRange == Some(p.pageRange) && r.isMerged == p.isMerged && r.pagesRetrieved == 1
            && (r.info.Some? <==> p.isMerged)
            && (p.isMerged ==> r.info == Some(MergedInfo(page, p.pageRangeStr)))
            && r.nextPage == NextLink(st, p.id) && r.prevPage == PrevLink(st, p.id)
            && r.relatedPages == RelatedLinks(st, p.id))
  {
    var ps := Containing(st, docId, page);
    if ps != [] {
      assert ps[0] in ps;
    }
  }

  /** `next_page` is present exactly when a NEXT_PAGE relationship leads from the page to a
      stored page, and then names the first such page. */
  lemma NextLinkMeans(st: Store, id: string)
    ensures NextLink(st, id).Some? <==>
      HasPage(st, id) && exists q :: q in st.pages && exists e :: e in st.next && e.from == id && e.to == q.id
    ensures NextLink(st, id).Some? ==>
      var q := Successors(st, id)[0];
      && q in st.pages && (exists e :: e in st.next && e.from == id && e.to == q.id)
      && NextLink(st, id) == Some(NavLink(q.pageNum, q.pageRangeStr))
  {
    var succ := Successors(st, id);
    if succ != [] {
      assert succ[0] in succ;
    }
  }

  /** `prev_page` is present exactly when a NEXT_PAGE relationship leads to the page from a
      stored page, and then names the first such page. */
  lemma PrevLinkMeans(st: Store, id: string)
    ensures PrevLink(st, id).Some? <==>
      HasPage(st, id) && exists q :: q in st.pages && exists e :: e in st.next && e.to == id && e.from == q.id
    ensures PrevLink(st, id).Some? ==>
      var q := Predecessors(st, id)[0];
      && q in st.pages && (exists e :: e in st.next && e.to == id && e.from == q.id)
      && PrevLink(st, id) == Some(NavLink(q.pageNum, q.pageRangeStr))
  {
    var pred := Predecessors(st, id);
    if pred != [] {
      assert pred[0] in pred;
    }
  }

  /** Five related pages, or all when the page has fewer, each the end of a RELATED_TO
      relationship leaving the page with that relationship's shared keywords, more shared
      keywords first; no relationship left out shares more keywords than one that was kept. */
  lemma RelatedLinksMeans(st: Store, id: string)
    ensures |RelatedLinks(st, id)| <= 5
    ensures forall x :: x in RelatedLinks(st, id) ==> exists row :: RelatedRowOf(st, id, row) && x == RelatedLinkOf(row)
    ensures forall i, j :: 0 <= i < j < |RelatedLinks(st, id)| ==>
      |RelatedLinks(st, id)[i].sharedKeywords| >= |RelatedLinks(st, id)[j].sharedKeywords|
    ensures |RelatedLinks(st, id)| == if |RelatedFrom(st, id)| < 5 then |RelatedFrom(st, id)| else 5
    ensures forall row, k ::
      (row in multiset(RelatedFrom(st, id)) - multiset(TopRelated(st, id)) && 0 <= k < |RelatedLinks(st, id)|) ==>
        |RelatedLinks(st, id)[k].sharedKeywords| >= |row.edge.keywords|
  {
    var top := TopRelated(st, id);
    var links := RelatedLinks(st, id);
    assert links == RelatedLinksOf(top) && |links| == |top|;
    assert |top| == if |RelatedFrom(st, id)| < 5 then |RelatedFrom(st, id)| else 5 by {
      TopRelatedTop(st, id);
    }
    forall x | x in links
      ensures exists row :: RelatedRowOf(st, id, row) && x == RelatedLinkOf(row)
    {
      var k :| 0 <= k < |links| && links[k] == x;
      assert top[k] in top;
      TopRelatedMeans(st, id);
      assert RelatedRowOf(st, id, top[k]);
    }
    forall i, j | 0 <= i < j < |links|
      ensures |links[i].sharedKeywords| >= |links[j].sharedKeywords|
    {
      TopRelatedMeans(st, id);
      assert links[i] == RelatedLinkOf(top[i]) && links[j] == RelatedLinkOf(top[j]);
    }
    forall row, k | row in multiset(RelatedFrom(st, id)) - multiset(top) && 0 <= k < |links|
      ensures |links[k].sharedKeywords| >= |row.edge.keywords|
    {
      TopRelatedTop(st, id);
      assert links[k] == RelatedLinkOf(top[k]) && top[k] in top;
    }
  }

  // ---------------------------------------------------------------------------
  // get_document_info (documentation_tool.py:466-541)
  // ---------------------------------------------------------------------------

  /** An entry of `chunks`: the page with a 150-character preview of its text. */
  datatype ChunkSummary = ChunkSummary(id: string, chunkIdx: nat, pageRange: string, isMerged: bool, text: string)

  datatype DocStats = DocStats(
    totalChunks: nat, mergedChunks: nat, nextRelationships: nat, discussesRelationships: nat,
    totalRelationships: nat)

  datatype DocumentInfo = DocumentInfo(docId: string, chunks: seq<ChunkSummary>, stats: DocStats, error: Option<string>)

  function SummaryOf(p: PageNode): ChunkSummary
  {
    ChunkSummary(p.id, p.chunkIdx, p.pageRangeStr, p.isMerged, Preview(p.text, 150))
  }

  /** `MATCH (d:Document {id: $doc_id})-[:CONTAINS]->(p:Page) ... ORDER BY idx` */
  function DocumentChunks(st: Store, docId: string): seq<PageNode>
  {
    ByChunkIdxTotal();
    SortBy(DocumentPages(st, docId), ByChunkIdx)
  }

  function SummariesOf(ps: seq<PageNode>): (r: seq<ChunkSummary>)
    ensures |r| == |ps|
  {
    seq(|ps|, k requires 0 <= k < |ps| => SummaryOf(ps[k]))
  }

  /** `merged_count`: the summaries of merged pages. */
  function MergedCount(cs: seq<ChunkSummary>): (n: nat)
    ensures n <= |cs|
  {
    if cs == [] then 0 else MergedCount(cs[..|cs| - 1]) + (if cs[|cs| - 1].isMerged then 1 else 0)
  }

  /** `MATCH (d)-[:CONTAINS]->(p:Page) MATCH (p)-[:NEXT_PAGE]->() RETURN count(*)`: one row for
      each contained page and each NEXT_PAGE relationship leaving it. */
  function NextCount(st: Store, ps: seq<PageNode>): nat
  {
    if ps == [] then 0 else NextCount(st, ps[..|ps| - 1]) + OutgoingNext(st, ps[|ps| - 1].id)
  }

  /** The same count for RELATED_TO relationships. */
  function RelatedCount(st: Store, ps: seq<PageNode>): nat
  {
    if ps == [] then 0 else RelatedCount(st, ps[..|ps| - 1]) + OutgoingRelated(st, ps[|ps| - 1].id)
  }

  /** The answer of `get_document_info`. */
  function DocumentInfoOf(graph: Option<Store>, docId: string): DocumentInfo
  {
    var r := DocumentInfo(docId, [], DocStats(0, 0, 0, 0, 0), None);
    if graph.None? then r.(error := Some(NotConnected))
    else
      var st := graph.value;
      var chunks := SummariesOf(DocumentChunks(st, docId));
      var pages := DocumentPages(st, docId);
      var next := NextCount(st, pages);
      var related := RelatedCount(st, pages);
      r.(chunks := chunks,
         stats := DocStats(|chunks|, MergedCount(chunks), next, related, next + related))
  }

  /** Without the store the answer is that error with no chunk and zero counts. With it there
      is no error, even for an unknown document; the total counts the chunks, the merged
      count is at most the total, and the relationship total is the sum of the two kinds. */
  lemma DocumentInfoShape(graph: Option<Store>, docId: string)
    ensures var r := DocumentInfoOf(graph, docId);
      && r.docId == docId
      && (graph.None? <==> r.error == Some(NotConnected))
      && (graph.None? <==> r.error.Some?)
      && (graph.None? ==> r.chunks == [] && r.stats == DocStats(0, 0, 0, 0, 0))
      && r.stats.totalChunks == |r.chunks|
      && r.stats.mergedChunks <= r.stats.totalChunks
      && r.stats.totalRelationships == r.stats.nextRelationships + r.stats.discussesRelationships
  {
  }

  /** The chunks are the summaries of the pages the document CONTAINS, each as often as the
      page occurs among those rows (see `Graph.DocumentPagesCount`), in ascending chunk order,
      and `merged_chunks` counts the merged ones. A document that is not stored has no chunk
      and no relationship. */
  lemma DocumentChunksMeans(st: Store, docId: string)
    ensures var r := DocumentInfoOf(Some(st), docId);
      && |r.chunks| == |DocumentPages(st, docId)|
      && (forall c :: c in r.chunks ==>
            exists p :: p in st.pages && ContainsEdge(docId, p.id) in st.contains && c == SummaryOf(p))
      && (forall i, j :: 0 <= i < j < |r.chunks| ==> r.chunks[i].chunkIdx <= r.chunks[j].chunkIdx)
      && r.stats.mergedChunks == |Filter(r.chunks, (c: ChunkSummary) => c.isMerged)|
      && (!HasDocument(st, docId) ==> r.chunks == [] && r.stats == DocStats(0, 0, 0, 0, 0))
      && multiset(r.chunks) == multiset(SummariesOf(DocumentPages(st, docId)))
      && (forall p :: p in DocumentPages(st, docId) ==> SummaryOf(p) in r.chunks)
  {
    ByChunkIdxTotal();
    var ps := DocumentChunks(st, docId);
    var cs := SummariesOf(ps);
    assert |multiset(ps)| == |multiset(DocumentPages(st, docId))|;
    DocumentChunksAll(st, docId);
    forall c | c in cs
      ensures exists p :: p in st.pages && ContainsEdge(docId, p.id) in st.contains && c == SummaryOf(p)
    {
      var k :| 0 <= k < |cs| && cs[k] == c;
      assert ps[k] in multiset(DocumentPages(st, docId));
    }
    forall i, j | 0 <= i < j < |cs|
      ensures cs[i].chunkIdx <= cs[j].chunkIdx
    {
      assert ByChunkIdx(ps[i], ps[j]);
    }
    MergedCountFilter(cs);
  }

  /** Every contained page is summarised, as often as it is a row. */
  lemma DocumentChunksAll(st: Store, docId: string)
    ensures multiset(SummariesOf(DocumentChunks(st, docId))) == multiset(SummariesOf(DocumentPages(st, docId)))
    ensures forall p :: p in DocumentPages(st, docId) ==> SummaryOf(p) in SummariesOf(DocumentChunks(st, docId))
  {
    var all := DocumentPages(st, docId);
    var cs := SummariesOf(DocumentChunks(st, docId));
    SummariesPermutation(DocumentChunks(st, docId), all);
    forall p | p in all
      ensures SummaryOf(p) in cs
    {
      var i :| 0 <= i < |all| && all[i] == p;
      assert SummariesOf(all)[i] == SummaryOf(p);
      assert SummaryOf(p) in multiset(SummariesOf(all));
    }
  }

  /** Summarising two orderings of the same pages gives the same summaries, each as often. */
  lemma {:induction false} SummariesPermutation(a: seq<PageNode>, b: seq<PageNode>)
    requires multiset(a) == multiset(b)
    ensures multiset(SummariesOf(a)) == multiset(SummariesOf(b))
    decreases |a|
  {
    if a != [] {
      var x := a[|a| - 1];
      var init := a[..|a| - 1];
      assert a == init + [x];
      assert x in multiset(b);
      var i :| 0 <= i < |b| && b[i] == x;
      var rest := b[..i] + b[i + 1..];
      assert b == b[..i] + [x] + b[i + 1..];
      MultisetRemove(a, b, i);
      SummariesPermutation(init, rest);
      SummariesAppend(init, [x]);
      SummariesAppend(b[..i], [x]);
      SummariesAppend(b[..i] + [x], b[i + 1..]);
      SummariesAppend(b[..i], b[i + 1..]);
    }
  }

  lemma SummariesAppend(a: seq<PageNode>, b: seq<PageNode>)
    ensures SummariesOf(a + b) == SummariesOf(a) + SummariesOf(b)
  {
  }

  lemma {:induction false} MergedCountFilter(cs: seq<ChunkSummary>)
    ensures MergedCount(cs) == |Filter(cs, (c: ChunkSummary) => c.isMerged)|
  {
    if cs != [] {
      MergedCountFilter(cs[..|cs| - 1]);
    }
  }

  // ---------------------------------------------------------------------------
  // list_documents (documentation_tool.py:543-577)
  // ---------------------------------------------------------------------------

  datatype DocumentList = DocumentList(documents: seq<DocumentNode>, total: nat, error: Option<string>)

  /** `ORDER BY id` */
  predicate ByDocId(a: DocumentNode, b: DocumentNode)
  {
    LexLe(a.id, b.id)
  }

  lemma ByDocIdTotal()
    ensures TotalPreorder(ByDocId)
  {
    forall a: DocumentNode, b: DocumentNode ensures ByDocId(a, b) || ByDocId(b, a) {
      LexTotal(a.id, b.id);
    }
    forall a: DocumentNode, b: DocumentNode, c: DocumentNode | ByDocId(a, b) && ByDocId(b, c)
      ensures ByDocId(a, c)
    {
      LexTransitive(a.id, b.id, c.id);
    }
  }

  /** The answer of `list_documents`. */
  function ListOf(graph: Option<Store>): DocumentList
  {
    if graph.None? then DocumentList([], 0, Some(NotConnected))
    else
      ByDocIdTotal();
      var docs := SortBy(graph.value.documents, ByDocId);
      DocumentList(docs, |docs|, None)
  }

  /** Every stored document, each as often as stored, ordered by id; the total is their
      number. Without the store the answer is that error and no document. */
  lemma ListOfMeans(graph: Option<Store>)
    ensures var r := ListOf(graph);
      && (graph.None? <==> r.error.Some?)
      && (graph.None? ==> r.error == Some(NotConnected) && r.documents == [] && r.total == 0)
      && (graph.Some? ==> multiset(r.documents) == multiset(graph.value.documents))
      && r.total == |r.documents|
      && (forall i, j :: 0 <= i < j < |r.documents| ==> LexLe(r.documents[i].id, r.documents[j].id))
  {
    ByDocIdTotal();
    var r := ListOf(graph);
    forall i, j | 0 <= i < j < |r.documents|
      ensures LexLe(r.documents[i].id, r.documents[j].id)
    {
      assert ByDocId(r.documents[i], r.documents[j]);
    }
  }
}
