/** The indexer: numbering the chunks of every document and the points of the vector
    collection (phase 1), writing the points in batches (phase 2), and deriving the page
    nodes, CONTAINS, NEXT_PAGE and RELATED_TO relationships of every document (phase 3). */
module GraphBuilder {
  import opened Wrappers
  import opened Text
  import opened Seqs
  import opened Segmenter
  import opened Graph
  import opened Vectors

  /** Minimum words per chunk. */
  const MinWords: nat := 50
  /** Minimum length of a keyword. */
  const MinWordLength: nat := 5
  /** Minimum number of shared keywords for a RELATED_TO relationship. */
  const SimilarityThreshold: nat := 3
  /** Points per vector-store write. */
  const BatchSize: nat := 50
  /** Keywords kept on a RELATED_TO relationship. */
  const MaxSharedKeywords: nat := 5

  // ---------------------------------------------------------------------------
  // Node ids
  // ---------------------------------------------------------------------------

  /** `page_range_str`: "first-last" for a range of several pages, the page number alone
      for a single page. */
  function PageRangeStr(range: seq<nat>): (s: string)
    requires range != []
    ensures s != []
  {
    if |range| > 1 then NatToString(range[0]) + "-" + NatToString(range[|range| - 1])
    else NatToString(range[0])
  }

  /** A range string holds a dash exactly when the chunk covers several pages. */
  lemma PageRangeStrDash(range: seq<nat>)
    requires range != []
    ensures '-' in PageRangeStr(range) <==> |range| > 1
  {
    NatToStringDigits(range[0]);
    NatToStringDigits(range[|range| - 1]);
    if |range| > 1 {
      assert PageRangeStr(range)[|NatToString(range[0])|] == '-';
    }
  }

  /** Reading a `page_range_str` back: the first and the last page. */
  function ParseRangeStr(s: string): Option<(nat, nat)>
  {
    if '-' in s then
      var i := IndexOf(s, '-');
      if AllDigits(s[..i]) && AllDigits(s[i + 1..]) then Some((DigitsValue(s[..i]), DigitsValue(s[i + 1..])))
      else None
    else if AllDigits(s) then Some((DigitsValue(s), DigitsValue(s)))
    else None
  }

  /** A `page_range_str` determines the first and the last page of its range. */
  lemma RangeStrRoundTrip(range: seq<nat>)
    requires range != []
    ensures ParseRangeStr(PageRangeStr(range)) == Some((range[0], range[|range| - 1]))
  {
    var s := PageRangeStr(range);
    NatToStringDigits(range[0]);
    NatToStringDigits(range[|range| - 1]);
    if |range| > 1 {
      var a := NatToString(range[0]);
      var b := NatToString(range[|range| - 1]);
      assert s == a + "-" + b;
      assert '-' !in a;
      assert s[|a|] == '-' && s[..|a|] == a;
      var i := IndexOf(s, '-');
      assert i == |a|;
      assert s[i + 1..] == b;
    } else {
      assert '-' !in NatToString(range[0]);
    }
  }

  /** The id of a page node: `"<doc>_page_<page_range_str>"`. */
  function NodeKey(docId: string, range: seq<nat>): (key: string)
    requires range != []
    ensures |docId| + 6 < |key| && key[..|docId|] == docId
  {
    docId + "_page_" + PageRangeStr(range)
  }

  /** Within a document, two chunks get the same node id only when their ranges start and
      end on the same pages. */
  lemma NodeKeyInjective(docId: string, a: seq<nat>, b: seq<nat>)
    requires a != [] && b != []
    requires NodeKey(docId, a) == NodeKey(docId, b)
    ensures a[0] == b[0] && a[|a| - 1] == b[|b| - 1]
  {
    var n := |docId + "_page_"|;
    assert PageRangeStr(a) == NodeKey(docId, a)[n..];
    assert PageRangeStr(b) == NodeKey(docId, b)[n..];
    RangeStrRoundTrip(a);
    RangeStrRoundTrip(b);
  }

  // ---------------------------------------------------------------------------
  // Phase 1: chunk and point numbering
  // ---------------------------------------------------------------------------

  /** The record kept for every chunk between the phases. */
  datatype ChunkRecord = ChunkRecord(
    id: nat, docId: string, chunkIdx: nat, pageNum: nat, pageRange: seq<nat>,
    isMerged: bool, text: string)

  /** A markdown file: the document id is the file name without its extension. */
  datatype SourceFile = SourceFile(stem: string, name: string, content: string)

  /** The chunk records of one document. */
  datatype DocChunks = DocChunks(docId: string, records: seq<ChunkRecord>)

  datatype MergeStats = MergeStats(totalChunks: nat, mergedChunks: nat, pagesMerged: nat)

  /** The chunk at position `idx` of document `docId`, stored under point id `id`. */
  function RecordOf(docId: string, c: Chunk, id: nat, idx: nat): ChunkRecord
  {
    ChunkRecord(id, docId, idx, c.pageNum, c.pageRange, c.isMerged, c.text)
  }

  /** The payload stored with a chunk's point. */
  function PointOf(r: ChunkRecord): (p: VectorPoint)
    ensures p.id == r.id && p.payload.chunkIdx == Some(r.chunkIdx) && p.payload.doc == Some(r.docId)
  {
    VectorPoint(r.id, Payload(Some(r.text), Some(r.docId), Some(r.chunkIdx), Some(r.pageNum),
                              Some(r.pageRange), Some(r.isMerged)))
  }

  /** The records of a document's chunks numbered from point id `firstId`: position `k`
      gets chunk index `k` and point id `firstId + k`. */
  function Numbered(docId: string, chunks: seq<Chunk>, firstId: nat): (rs: seq<ChunkRecord>)
    ensures |rs| == |chunks|
    ensures forall k :: 0 <= k < |rs| ==> rs[k].chunkIdx == k && rs[k].id == firstId + k
    ensures forall k :: 0 <= k < |rs| ==> rs[k] == RecordOf(docId, chunks[k], firstId + k, k)
  {
    seq(|chunks|, k requires 0 <= k < |chunks| => RecordOf(docId, chunks[k], firstId + k, k))
  }

  function AllRecords(docs: seq<DocChunks>): seq<ChunkRecord>
  {
    if docs == [] then [] else AllRecords(docs[..|docs| - 1]) + docs[|docs| - 1].records
  }

  /** Number of merged chunks. */
  function MergedCount(rs: seq<ChunkRecord>): nat
  {
    if rs == [] then 0 else MergedCount(rs[..|rs| - 1]) + (if rs[|rs| - 1].isMerged then 1 else 0)
  }

  /** Number of pages inside merged chunks. */
  function PagesMerged(rs: seq<ChunkRecord>): nat
  {
    if rs == [] then 0
    else PagesMerged(rs[..|rs| - 1]) + (if rs[|rs| - 1].isMerged then |rs[|rs| - 1].pageRange| else 0)
  }

  lemma {:induction false} StatsAppend(rs: seq<ChunkRecord>, qs: seq<ChunkRecord>)
    ensures MergedCount(rs + qs) == MergedCount(rs) + MergedCount(qs)
    ensures PagesMerged(rs + qs) == PagesMerged(rs) + PagesMerged(qs)
    decreases |qs|
  {
    if qs == [] {
      assert rs + qs == rs;
    } else {
      assert (rs + qs)[..|rs + qs| - 1] == rs + qs[..|qs| - 1];
      StatsAppend(rs, qs[..|qs| - 1]);
    }
  }

  /** The per-document loop of phase 1: every chunk gets the next point id and its position
      in the document as chunk index; merged chunks and their pages are counted. */
  method NumberChunks(docId: string, pages: seq<Chunk>, firstId: nat)
    returns (records: seq<ChunkRecord>, points: seq<VectorPoint>, nextId: nat, mergedCount: nat, pagesMerged: nat)
    ensures records == Numbered(docId, pages, firstId)
    ensures |points| == |records| && forall k :: 0 <= k < |points| ==> points[k] == PointOf(records[k])
    ensures nextId == firstId + |pages|
    ensures mergedCount == MergedCount(records) && pagesMerged == PagesMerged(records)
  {
    records, points, nextId, mergedCount, pagesMerged := [], [], firstId, 0, 0;
    for i := 0 to |pages|
      invariant |records| == i && forall k :: 0 <= k < i ==> records[k] == RecordOf(docId, pages[k], firstId + k, k)
      invariant |points| == i && forall k :: 0 <= k < i ==> points[k] == PointOf(records[k])
      invariant nextId == firstId + i
      invariant mergedCount == MergedCount(records) && pagesMerged == PagesMerged(records)
    {
      var page := pages[i];
      if page.isMerged {
        mergedCount := mergedCount + 1;
        pagesMerged := pagesMerged + |page.pageRange|;
      }
      var record := RecordOf(docId, page, nextId, |records|);
      ghost var before := records;
      records := records + [record];
      assert records[..i] == before;
      points := points + [PointOf(record)];
      nextId := nextId + 1;
    }
    assert records == Numbered(docId, pages, firstId);
  }

  /** `lists` holds the chunks of every file. */
  ghost predicate ChunkLists(files: seq<SourceFile>, lists: seq<seq<Chunk>>)
  {
    && |lists| == |files|
    && forall g {:trigger ChunksOf(files[g].content, MinWords)} :: 0 <= g < |files| ==>
         lists[g] == ChunksOf(files[g].content, MinWords)
  }

  function FileChunks(files: seq<SourceFile>): (lists: seq<seq<Chunk>>)
    ensures ChunkLists(files, lists)
  {
    seq(|files|, g requires 0 <= g < |files| => ChunksOf(files[g].content, MinWords))
  }

  /** The chunk records of the first `f` files, whose chunks are `lists`: the chunks of
      every file are numbered on from the number of chunks of the files before it. */
  function DocsUpTo(files: seq<SourceFile>, lists: seq<seq<Chunk>>, f: nat): (docs: seq<DocChunks>)
    requires f <= |files| && |lists| == |files|
    ensures |docs| == f
  {
    if f == 0 then []
    else
      var before := DocsUpTo(files, lists, f - 1);
      before + [DocChunks(files[f - 1].stem, Numbered(files[f - 1].stem, lists[f - 1], |AllRecords(before)|))]
  }

  lemma {:induction false} DocsUpToPrefix(files: seq<SourceFile>, lists: seq<seq<Chunk>>, f: nat, g: nat)
    requires g <= f <= |files| && |lists| == |files|
    ensures DocsUpTo(files, lists, f)[..g] == DocsUpTo(files, lists, g)
    decreases f
  {
    if g < f {
      var init := DocsUpTo(files, lists, f - 1);
      DocsUpToPrefix(files, lists, f - 1, g);
      assert DocsUpTo(files, lists, f)[..g] == init[..g];
    }
  }

  lemma DocsUpToAt(files: seq<SourceFile>, lists: seq<seq<Chunk>>, f: nat, g: nat)
    requires g < f <= |files| && |lists| == |files|
    ensures DocsUpTo(files, lists, f)[g] == DocsUpTo(files, lists, g + 1)[g]
  {
    DocsUpToPrefix(files, lists, f, g + 1);
    assert DocsUpTo(files, lists, f)[g] == DocsUpTo(files, lists, f)[..g + 1][g];
  }

  /** Document `g` of phase 1 is the file's stem with the file's chunks, numbered from the
      number of chunks of the files before it (so point ids run on across files), and the
      entries before it do not depend on the files after them. */
  lemma IndexedDocument(files: seq<SourceFile>, f: nat, g: nat)
    requires g < f <= |files|
    ensures var docs := DocsUpTo(files, FileChunks(files), f);
      && docs[..g] == DocsUpTo(files, FileChunks(files), g)
      && docs[g].docId == files[g].stem
      && docs[g].records == Numbered(files[g].stem, ChunksOf(files[g].content, MinWords), |AllRecords(docs[..g])|)
  {
    var lists := FileChunks(files);
    DocsUpToPrefix(files, lists, f, g);
    DocsUpToAt(files, lists, f, g);
    var before := DocsUpTo(files, lists, g);
    assert DocsUpTo(files, lists, g + 1)[g]
        == DocChunks(files[g].stem, Numbered(files[g].stem, lists[g], |AllRecords(before)|));
    assert lists[g] == ChunksOf(files[g].content, MinWords);
  }

  /** `allPoints` are the points of `records`, with ids 0, 1, 2, ... */
  ghost predicate PointsOf(allPoints: seq<VectorPoint>, records: seq<ChunkRecord>)
  {
    && |allPoints| == |records|
    && forall k :: 0 <= k < |allPoints| ==> allPoints[k] == PointOf(records[k]) && allPoints[k].id == k
  }

  /** One file of phase 1: its chunks, numbered from point id `pointId`, their points and
      their merge counts. */
  method IndexFile(file: SourceFile, pointId: nat, ghost files: seq<SourceFile>, ghost lists: seq<seq<Chunk>>, ghost f: nat)
    returns (records: seq<ChunkRecord>, points: seq<VectorPoint>, nextId: nat, mergedCount: nat, pagesMerged: nat)
    requires ChunkLists(files, lists) && f < |files| && file == files[f]
    ensures records == Numbered(file.stem, lists[f], pointId)
    ensures |points| == |records| && forall k :: 0 <= k < |points| ==> points[k] == PointOf(records[k])
    ensures nextId == pointId + |records|
    ensures mergedCount == MergedCount(records) && pagesMerged == PagesMerged(records)
  {
    var pages := SplitByPages(file.content, MinWords);
    records, points, nextId, mergedCount, pagesMerged := NumberChunks(file.stem, pages, pointId);
  }

  /** After the first `f` files: their records, their points and the counts so far. */
  ghost predicate IndexedUpTo(files: seq<SourceFile>, lists: seq<seq<Chunk>>, f: nat,
                              docData: seq<DocChunks>, allPoints: seq<VectorPoint>, stats: MergeStats, pointId: nat)
    requires f <= |files| && |lists| == |files|
  {
    && docData == DocsUpTo(files, lists, f)
    && pointId == |allPoints| && PointsOf(allPoints, AllRecords(docData))
    && stats == MergeStats(|allPoints|, MergedCount(AllRecords(docData)), PagesMerged(AllRecords(docData)))
  }

  /** The chunk part of one iteration of the file loop: file `f` is split, its chunks are
      numbered on from `pointId` and appended. */
  method IndexStep(files: seq<SourceFile>, ghost lists: seq<seq<Chunk>>, f: nat,
                   docData: seq<DocChunks>, allPoints: seq<VectorPoint>, stats: MergeStats, pointId: nat)
    returns (docData': seq<DocChunks>, allPoints': seq<VectorPoint>, stats': MergeStats, pointId': nat)
    requires ChunkLists(files, lists) && f < |files|
    requires IndexedUpTo(files, lists, f, docData, allPoints, stats, pointId)
    ensures IndexedUpTo(files, lists, f + 1, docData', allPoints', stats', pointId')
  {
    var file := files[f];
    var records, points, nextId, mergedCount, pagesMerged := IndexFile(file, pointId, files, lists, f);
    ghost var before := AllRecords(docData);
    var doc := DocChunks(file.stem, records);
    AllRecordsAppend(docData, doc);
    PointsStep(allPoints, before, points, records);
    StatsAppend(before, records);
    docData' := docData + [doc];
    allPoints' := allPoints + points;
    pointId' := nextId;
    stats' := MergeStats(stats.totalChunks + |records|, stats.mergedChunks + mergedCount,
                         stats.pagesMerged + pagesMerged);
  }

  /** The file loop of phase 1 (`lists` names the chunks of every file). */
  method IndexFiles(files: seq<SourceFile>, st: Store, ghost lists: seq<seq<Chunk>>)
    returns (docData: seq<DocChunks>, allPoints: seq<VectorPoint>, stats: MergeStats, st': Store)
    requires ChunkLists(files, lists)
    ensures docData == DocsUpTo(files, lists, |files|)
    ensures PointsOf(allPoints, AllRecords(docData))
    ensures stats == MergeStats(|allPoints|, MergedCount(AllRecords(docData)), PagesMerged(AllRecords(docData)))
    ensures forall f :: 0 <= f < |files| ==> HasDocument(st', files[f].stem)
    ensures st' == st.(documents := st'.documents)
  {
    docData, allPoints, stats, st' := [], [], MergeStats(0, 0, 0), st;
    var pointId := 0;
    for f := 0 to |files|
      invariant IndexedUpTo(files, lists, f, docData, allPoints, stats, pointId)
      invariant forall g :: 0 <= g < f ==> HasDocument(st', files[g].stem)
      invariant st' == st.(documents := st'.documents)
    {
      var file := files[f];
      MergeFileDocument(st', files, f);
      st' := MergeDocument(st', DocumentNode(file.stem, file.name, file.stem));
      docData, allPoints, stats, pointId := IndexStep(files, lists, f, docData, allPoints, stats, pointId);
    }
  }

  /** Merging the node of the next file keeps the documents of the files before it. */
  lemma MergeFileDocument(st: Store, files: seq<SourceFile>, f: nat)
    requires f < |files|
    requires forall g :: 0 <= g < f ==> HasDocument(st, files[g].stem)
    ensures forall g :: 0 <= g <= f ==>
      HasDocument(MergeDocument(st, DocumentNode(files[f].stem, files[f].name, files[f].stem)), files[g].stem)
  {
  }

  /** Phase 1 over all files, in order: every document node is merged into the store, every
      file is split into chunks, and the chunks of all files are numbered with consecutive
      point ids starting at 0. */
  method IndexChunks(files: seq<SourceFile>, st: Store)
    returns (docData: seq<DocChunks>, allPoints: seq<VectorPoint>, stats: MergeStats, st': Store)
    ensures docData == DocsUpTo(files, FileChunks(files), |files|)
    ensures PointsOf(allPoints, AllRecords(docData))
    ensures stats == MergeStats(|allPoints|, MergedCount(AllRecords(docData)), PagesMerged(AllRecords(docData)))
    ensures forall f :: 0 <= f < |files| ==> HasDocument(st', files[f].stem)
    ensures st' == st.(documents := st'.documents)
  {
    docData, allPoints, stats, st' := IndexFiles(files, st, FileChunks(files));
  }

  lemma AllRecordsAppend(docs: seq<DocChunks>, doc: DocChunks)
    ensures AllRecords(docs + [doc]) == AllRecords(docs) + doc.records
  {
    assert (docs + [doc])[..|docs|] == docs;
  }

  lemma PointsStep(allPoints: seq<VectorPoint>, before: seq<ChunkRecord>,
                   points: seq<VectorPoint>, records: seq<ChunkRecord>)
    requires PointsOf(allPoints, before)
    requires |points| == |records| && forall k :: 0 <= k < |points| ==> points[k] == PointOf(records[k])
    requires forall k :: 0 <= k < |records| ==> records[k].id == |before| + k
    ensures PointsOf(allPoints + points, before + records)
  {
    forall k | 0 <= k < |allPoints| + |points|
      ensures (allPoints + points)[k] == PointOf((before + records)[k]) && (allPoints + points)[k].id == k
    {
      if k >= |allPoints| {
        assert (allPoints + points)[k] == points[k - |allPoints|];
        assert (before + records)[k] == records[k - |allPoints|];
      }
    }
  }

  /** `MERGE (d:Document {id: $id}) SET d.source = $source, d.title = $title`: every node
      with that id gets the new properties; without one, a node is created. */
  function MergeDocument(st: Store, d: DocumentNode): (st': Store)
    ensures st' == st.(documents := st'.documents)
    ensures HasDocument(st', d.id)
    ensures forall id :: HasDocument(st, id) ==> HasDocument(st', id)
    ensures HasDocument(st, d.id) ==>
      && |st'.documents| == |st.documents|
      && forall k :: 0 <= k < |st.documents| ==>
           st'.documents[k] == (if st.documents[k].id == d.id then d else st.documents[k])
    ensures !HasDocument(st, d.id) ==> st'.documents == st.documents + [d]
  {
    DocumentExistsMeans(st.documents, d.id);
    if HasDocument(st, d.id) then
      var docs := seq(|st.documents|, k requires 0 <= k < |st.documents| =>
                        if st.documents[k].id == d.id then d else st.documents[k]);
      assert forall id :: HasDocument(st, id) ==> DocumentExists(docs, id) by {
        forall id | HasDocument(st, id) ensures DocumentExists(docs, id) {
          DocumentExistsMeans(st.documents, id);
          DocumentExistsMeans(docs, id);
          var e :| e in st.documents && e.id == id;
          var i :| 0 <= i < |st.documents| && st.documents[i] == e;
          assert docs[i].id == id;
        }
      }
      st.(documents := docs)
    else
      var docs := st.documents + [d];
      assert forall id :: HasDocument(st, id) ==> DocumentExists(docs, id) by {
        forall id | HasDocument(st, id) ensures DocumentExists(docs, id) {
          assert docs[..|docs| - 1] == st.documents;
        }
      }
      st.(documents := docs)
  }

  // ---------------------------------------------------------------------------
  // Phase 2: batched writes
  // ---------------------------------------------------------------------------

  /** `[all_points[i:i+size] for i in range(0, len(all_points), size)]` */
  function BatchesOf<T>(points: seq<T>, size: nat): seq<seq<T>>
    requires size > 0
    decreases |points|
  {
    if points == [] then []
    else if |points| <= size then [points]
    else [points[..size]] + BatchesOf(points[size..], size)
  }

  /** The batches together are the points, in order. */
  lemma {:induction false} BatchesOfFlatten<T>(points: seq<T>, size: nat)
    requires size > 0
    ensures Flatten(BatchesOf(points, size)) == points
    decreases |points|
  {
    var bs := BatchesOf(points, size);
    if |points| > size {
      BatchesOfFlatten(points[size..], size);
      assert bs[1..] == BatchesOf(points[size..], size);
      assert points == points[..size] + points[size..];
    } else if points != [] {
      assert Flatten(bs) == points + Flatten(bs[1..]);
    }
  }

  /** Every batch is non-empty and at most `size` long, all but the last exactly `size`. */
  lemma {:induction false} BatchesOfSizes<T>(points: seq<T>, size: nat)
    requires size > 0
    ensures forall b :: 0 <= b < |BatchesOf(points, size)| ==> 0 < |BatchesOf(points, size)[b]| <= size
    ensures forall b :: 0 <= b < |BatchesOf(points, size)| - 1 ==> |BatchesOf(points, size)[b]| == size
    decreases |points|
  {
    var bs := BatchesOf(points, size);
    if |points| > size {
      var rest := BatchesOf(points[size..], size);
      BatchesOfSizes(points[size..], size);
      assert bs == [points[..size]] + rest;
      forall b | 0 <= b < |bs| ensures 0 < |bs[b]| <= size && (b < |bs| - 1 ==> |bs[b]| == size) {
        if b > 0 { assert bs[b] == rest[b - 1]; }
      }
    }
  }

  /** There are just enough batches: `ceil(len(points) / size)` of them. */
  lemma {:induction false} BatchesOfCount<T>(points: seq<T>, size: nat)
    requires size > 0
    ensures |BatchesOf(points, size)| * size >= |points| > (|BatchesOf(points, size)| - 1) * size
    decreases |points|
  {
    if |points| > size {
      var n := |BatchesOf(points[size..], size)|;
      BatchesOfCount(points[size..], size);
      assert |BatchesOf(points, size)| == n + 1;
      assert (n + 1) * size == n * size + size;
    }
  }

  /** The batching loop of the indexer's upload step: it produces exactly `BatchesOf`. */
  method Batches<T>(points: seq<T>, size: nat) returns (batches: seq<seq<T>>)
    requires size > 0
    ensures batches == BatchesOf(points, size)
  {
    batches := [];
    var i := 0;
    while i < |points|
      invariant i <= |points|
      invariant batches + BatchesOf(points[i..], size) == BatchesOf(points, size)
      decreases |points| - i
    {
      var hi := if i + size < |points| then i + size else |points|;
      var rest := points[i..];
      assert BatchesOf(rest, size) == [points[i..hi]] + BatchesOf(points[hi..], size) by {
        if hi < |points| {
          assert rest[..size] == points[i..hi] && rest[size..] == points[hi..];
        } else {
          assert rest == points[i..hi] && points[hi..] == [];
        }
      }
      ConcatAssoc(batches, [points[i..hi]], BatchesOf(points[hi..], size));
      batches := batches + [points[i..hi]];
      i := hi;
    }
    assert points[i..] == [];
  }

  // ---------------------------------------------------------------------------
  // Merge statistics
  // ---------------------------------------------------------------------------

  /** The page range of every record. `RecordRanges`, `RecordPageNums` and `KeywordLists`
      project chunk records field by field, as `Segmenter.PageNums` and
      `Segmenter.RangesOf` project raw pages and chunks. */
  function RecordRanges(rs: seq<ChunkRecord>): (r: seq<seq<nat>>)
    ensures |r| == |rs| && forall k :: 0 <= k < |rs| ==> r[k] == rs[k].pageRange
  {
    seq(|rs|, k requires 0 <= k < |rs| => rs[k].pageRange)
  }

  /** With every chunk merged exactly when it spans several pages, the pages inside merged
      chunks plus the unmerged chunks (one page each) are all the pages the chunks cover. */
  lemma {:induction false} RangeCount(rs: seq<ChunkRecord>)
    requires forall k :: 0 <= k < |rs| ==> rs[k].pageRange != [] && (rs[k].isMerged <==> |rs[k].pageRange| > 1)
    ensures PagesMerged(rs) + |rs| == |Flatten(RecordRanges(rs))| + MergedCount(rs)
    decreases |rs|
  {
    if rs != [] {
      var init := rs[..|rs| - 1];
      var last := rs[|rs| - 1];
      RangeCount(init);
      assert RecordRanges(rs) == RecordRanges(init) + [last.pageRange];
      FlattenAppend(RecordRanges(init), [last.pageRange]);
      assert Flatten([last.pageRange]) == last.pageRange + Flatten([last.pageRange][1..]);
    }
  }

  /** The merge statistics of a document account for every page marker of its text:
      `pages_merged` plus the number of unmerged chunks is the number of markers. */
  lemma MergeStatsCount(docId: string, content: string, firstId: nat)
    ensures var rs := Numbered(docId, ChunksOf(content, MinWords), firstId);
      PagesMerged(rs) + |rs| == |MarkerNumbers(SplitLines(content))| + MergedCount(rs)
  {
    ChunksCoverMarkers(content, MinWords);
    NumberedCount(docId, ChunksOf(content, MinWords), firstId);
  }

  lemma NumberedCount(docId: string, cs: seq<Chunk>, firstId: nat)
    requires forall k :: 0 <= k < |cs| ==> cs[k].pageRange != [] && (cs[k].isMerged <==> |cs[k].pageRange| > 1)
    ensures var rs := Numbered(docId, cs, firstId);
      PagesMerged(rs) + |rs| == |Flatten(RangesOf(cs))| + MergedCount(rs)
  {
    var rs := Numbered(docId, cs, firstId);
    assert RecordRanges(rs) == RangesOf(cs);
    RangeCount(rs);
  }

  // ---------------------------------------------------------------------------
  // Phase 3: page nodes and CONTAINS
  // ---------------------------------------------------------------------------

  /** Every chunk covers at least one page (true of the chunks the segmenter makes). */
  predicate RangesNonEmpty(chunks: seq<ChunkRecord>)
  {
    forall k :: 0 <= k < |chunks| ==> chunks[k].pageRange != []
  }

  function Key(docId: string, chunks: seq<ChunkRecord>, k: nat): string
    requires k < |chunks| && RangesNonEmpty(chunks)
  {
    NodeKey(docId, chunks[k].pageRange)
  }

  /** The Page node of a chunk; its word count is recounted from the text. */
  function PageNodeOf(docId: string, c: ChunkRecord): (p: PageNode)
    requires c.pageRange != []
    ensures p.id == NodeKey(docId, c.pageRange) && p.wordCount == |Words(c.text)|
    ensures p.chunkIdx == c.chunkIdx && p.pageNum == c.pageNum && p.pageRange == c.pageRange
    ensures p.pageRangeStr == PageRangeStr(c.pageRange) && p.text == c.text && p.isMerged == c.isMerged
  {
    PageNode(NodeKey(docId, c.pageRange), docId, c.pageNum, c.pageRange, PageRangeStr(c.pageRange),
             c.chunkIdx, c.text, |Words(c.text)|, c.isMerged)
  }

  function PageNodes(docId: string, chunks: seq<ChunkRecord>): (ps: seq<PageNode>)
    requires RangesNonEmpty(chunks)
    ensures |ps| == |chunks| && forall k :: 0 <= k < |chunks| ==> ps[k] == PageNodeOf(docId, chunks[k])
  {
    seq(|chunks|, k requires 0 <= k < |chunks| => PageNodeOf(docId, chunks[k]))
  }

  /** The recounted word count of a Page node is the count the segmenter computed. */
  lemma PageWordCount(docId: string, content: string, firstId: nat)
    ensures var cs := ChunksOf(content, MinWords);
      var rs := Numbered(docId, cs, firstId);
      && RangesNonEmpty(rs)
      && forall k :: 0 <= k < |rs| ==> PageNodes(docId, rs)[k].wordCount == cs[k].wordCount
  {
    ChunksCoverMarkers(content, MinWords);
    NumberedWordCount(docId, ChunksOf(content, MinWords), firstId);
  }

  lemma NumberedWordCount(docId: string, cs: seq<Chunk>, firstId: nat)
    requires forall k :: 0 <= k < |cs| ==> cs[k].pageRange != [] && cs[k].wordCount == |Words(cs[k].text)|
    ensures var rs := Numbered(docId, cs, firstId);
      && RangesNonEmpty(rs)
      && forall k :: 0 <= k < |rs| ==> PageNodes(docId, rs)[k].wordCount == cs[k].wordCount
  {
  }

  predicate NoDuplicates<T(==)>(xs: seq<T>)
  {
    forall i, j :: 0 <= i < j < |xs| ==> xs[i] != xs[j]
  }

  /** The CONTAINS relationships from a document to the nodes of its chunks. */
  function ContainsFor(docId: string, chunks: seq<ChunkRecord>): (r: seq<ContainsEdge>)
    requires RangesNonEmpty(chunks)
    ensures |r| == |chunks| && forall k :: 0 <= k < |chunks| ==> r[k] == ContainsEdge(docId, Key(docId, chunks, k))
  {
    seq(|chunks|, k requires 0 <= k < |chunks| => ContainsEdge(docId, Key(docId, chunks, k)))
  }

  /** `MATCH (d:Document {id: $doc}) MATCH (p:Page {id: $page}) MERGE (d)-[:CONTAINS]->(p)` */
  function MergeContains(st: Store, docId: string, pageId: string): (st': Store)
    ensures st' == st.(contains := st'.contains)
    ensures forall e :: e in st'.contains <==>
      e in st.contains || (e == ContainsEdge(docId, pageId) && HasDocument(st, docId) && HasPage(st, pageId))
    ensures NoDuplicates(st.contains) ==> NoDuplicates(st'.contains)
  {
    var e := ContainsEdge(docId, pageId);
    if HasDocument(st, docId) && HasPage(st, pageId) && e !in st.contains then
      st.(contains := st.contains + [e])
    else st
  }

  /** `nodes` are the Page nodes of `chunks`. */
  ghost predicate NodesOf(docId: string, chunks: seq<ChunkRecord>, nodes: seq<PageNode>)
  {
    && |nodes| == |chunks|
    && forall k {:trigger chunks[k]} :: 0 <= k < |chunks| ==>
         chunks[k].pageRange != [] && nodes[k] == PageNodeOf(docId, chunks[k])
  }

  /** The CONTAINS relationships from a document to `nodes`. */
  function ContainsEdges(docId: string, nodes: seq<PageNode>): (r: seq<ContainsEdge>)
    ensures |r| == |nodes| && forall k :: 0 <= k < |nodes| ==> r[k] == ContainsEdge(docId, nodes[k].id)
  {
    seq(|nodes|, k requires 0 <= k < |nodes| => ContainsEdge(docId, nodes[k].id))
  }

  lemma NodesOfPageNodes(docId: string, chunks: seq<ChunkRecord>)
    requires RangesNonEmpty(chunks)
    ensures NodesOf(docId, chunks, PageNodes(docId, chunks))
    ensures ContainsEdges(docId, PageNodes(docId, chunks)) == ContainsFor(docId, chunks)
  {
  }

  /** One iteration of the page-node loop: the node is created, then linked to its document
      unless the link exists or an end is missing. */
  method AddPage(st: Store, docId: string, node: PageNode) returns (st': Store)
    ensures st'.pages == st.pages + [node]
    ensures st' == st.(pages := st'.pages, contains := st'.contains)
    ensures forall e :: e in st'.contains <==>
      e in st.contains || (e == ContainsEdge(docId, node.id) && HasDocument(st, docId))
    ensures NoDuplicates(st.contains) ==> NoDuplicates(st'.contains)
  {
    st' := st.(pages := st.pages + [node]);
    PageExistsMeans(st'.pages, node.id);
    assert node in st'.pages;
    st' := MergeContains(st', docId, node.id);
  }

  /** The loop of `CreatePageNodes` over the prepared nodes. */
  method AddPages(st: Store, docId: string, chunks: seq<ChunkRecord>, ghost nodes: seq<PageNode>) returns (st': Store)
    requires NodesOf(docId, chunks, nodes)
    ensures st'.pages == st.pages + nodes
    ensures st' == st.(pages := st'.pages, contains := st'.contains)
    ensures forall e :: e in st'.contains <==>
      e in st.contains || (HasDocument(st, docId) && e in ContainsEdges(docId, nodes))
    ensures NoDuplicates(st.contains) ==> NoDuplicates(st'.contains)
  {
    st' := st;
    for i := 0 to |chunks|
      invariant st'.pages == st.pages + nodes[..i]
      invariant st' == st.(pages := st'.pages, contains := st'.contains)
      invariant forall e :: e in st'.contains <==>
        e in st.contains || (HasDocument(st, docId) && e in ContainsEdges(docId, nodes[..i]))
      invariant NoDuplicates(st.contains) ==> NoDuplicates(st'.contains)
    {
      var node := PageNodeOf(docId, chunks[i]);
      assert node == nodes[i];
      assert nodes[..i + 1] == nodes[..i] + [node];
      assert ContainsEdges(docId, nodes[..i + 1]) == ContainsEdges(docId, nodes[..i]) + [ContainsEdge(docId, node.id)];
      st' := AddPage(st', docId, node);
    }
    assert nodes[..|chunks|] == nodes;
  }

  /** The page-node loop of phase 3: a Page node per chunk, each linked to its document
      (when the document node exists) without duplicating a CONTAINS relationship. */
  method CreatePageNodes(st: Store, docId: string, chunks: seq<ChunkRecord>) returns (st': Store)
    requires RangesNonEmpty(chunks)
    ensures st'.pages == st.pages + PageNodes(docId, chunks)
    ensures st' == st.(pages := st'.pages, contains := st'.contains)
    ensures forall e :: e in st'.contains <==>
      e in st.contains || (HasDocument(st, docId) && e in ContainsFor(docId, chunks))
    ensures NoDuplicates(st.contains) ==> NoDuplicates(st'.contains)
  {
    NodesOfPageNodes(docId, chunks);
    st' := AddPages(st, docId, chunks, PageNodes(docId, chunks));
  }

  // ---------------------------------------------------------------------------
  // Phase 3: NEXT_PAGE
  // ---------------------------------------------------------------------------

  /** The node ids of the chunks of a document, in order. */
  function Keys(docId: string, chunks: seq<ChunkRecord>): (ks: seq<string>)
    requires RangesNonEmpty(chunks)
    ensures |ks| == |chunks| && forall k :: 0 <= k < |chunks| ==> ks[k] == Key(docId, chunks, k)
  {
    seq(|chunks|, k requires 0 <= k < |chunks| => Key(docId, chunks, k))
  }

  /** A relationship from every id to the next one. */
  function Chain(ks: seq<string>): (r: seq<NextEdge>)
    ensures |r| == if ks == [] then 0 else |ks| - 1
    ensures forall i :: 0 <= i < |r| ==> r[i] == NextEdge(ks[i], ks[i + 1])
  {
    if |ks| <= 1 then [] else Chain(ks[..|ks| - 1]) + [NextEdge(ks[|ks| - 2], ks[|ks| - 1])]
  }

  /** The sequential relationships of a document: one from every chunk to the next. */
  function ChainEdges(docId: string, chunks: seq<ChunkRecord>): (r: seq<NextEdge>)
    requires RangesNonEmpty(chunks)
    ensures |r| == if |chunks| == 0 then 0 else |chunks| - 1
    ensures forall i :: 0 <= i < |r| ==> r[i] == NextEdge(Key(docId, chunks, i), Key(docId, chunks, i + 1))
  {
    Chain(Keys(docId, chunks))
  }

  /** The relationships of `edges` that `MATCH (p1:Page {id: from}) MATCH (p2:Page {id: to})`
      lets through: those whose two end nodes are in `pages`, in order. */
  function Matched(pages: seq<PageNode>, edges: seq<NextEdge>): (r: seq<NextEdge>)
    ensures |r| <= |edges|
  {
    if edges == [] then []
    else
      var e := edges[|edges| - 1];
      Matched(pages, edges[..|edges| - 1]) + (if PageExists(pages, e.from) && PageExists(pages, e.to) then [e] else [])
  }

  /** A relationship is created exactly when it is offered and both its nodes exist. */
  lemma {:induction false} MatchedMembers(pages: seq<PageNode>, edges: seq<NextEdge>)
    ensures forall e :: e in Matched(pages, edges) <==> e in edges && PageExists(pages, e.from) && PageExists(pages, e.to)
    decreases |edges|
  {
    if edges != [] {
      var e := edges[|edges| - 1];
      assert edges == edges[..|edges| - 1] + [e];
      MatchedMembers(pages, edges[..|edges| - 1]);
    }
  }

  /** When every node exists, every relationship of the chain is created. */
  lemma {:induction false} MatchedAll(pages: seq<PageNode>, edges: seq<NextEdge>)
    requires forall e :: e in edges ==> PageExists(pages, e.from) && PageExists(pages, e.to)
    ensures Matched(pages, edges) == edges
    decreases |edges|
  {
    if edges != [] {
      var init := edges[..|edges| - 1];
      assert edges == init + [edges[|edges| - 1]];
      MatchedAll(pages, init);
    }
  }

  /** `keys` are the node ids of `chunks`. */
  ghost predicate KeysOf(docId: string, chunks: seq<ChunkRecord>, keys: seq<string>)
  {
    && |keys| == |chunks|
    && forall k {:trigger chunks[k]} :: 0 <= k < |chunks| ==>
         chunks[k].pageRange != [] && keys[k] == NodeKey(docId, chunks[k].pageRange)
  }

  lemma KeysOfKeys(docId: string, chunks: seq<ChunkRecord>)
    requires RangesNonEmpty(chunks)
    ensures KeysOf(docId, chunks, Keys(docId, chunks))
  {
  }

  /** One more relationship of a chain offered to `Matched`. */
  lemma MatchedNext(pages: seq<PageNode>, chain: seq<NextEdge>, i: nat, base: seq<NextEdge>, cur: seq<NextEdge>)
    requires i < |chain| && cur == base + Matched(pages, chain[..i])
    ensures (if PageExists(pages, chain[i].from) && PageExists(pages, chain[i].to) then cur + [chain[i]] else cur)
         == base + Matched(pages, chain[..i + 1])
  {
    assert chain[..i + 1][..i] == chain[..i];
    if PageExists(pages, chain[i].from) && PageExists(pages, chain[i].to) {
      ConcatAssoc(base, Matched(pages, chain[..i]), [chain[i]]);
    } else {
      assert Matched(pages, chain[..i + 1]) == Matched(pages, chain[..i]) + [];
    }
  }

  /** The loop over consecutive chunks, appending to `next` the relationships whose two
      nodes are in `pages`. */
  method LinkChain(next: seq<NextEdge>, pages: seq<PageNode>, docId: string, chunks: seq<ChunkRecord>,
                   ghost keys: seq<string>)
    returns (next': seq<NextEdge>)
    requires KeysOf(docId, chunks, keys)
    ensures next' == next + Matched(pages, Chain(keys))
  {
    next' := next;
    var n := if |chunks| == 0 then 0 else |chunks| - 1;
    ghost var chain := Chain(keys);
    for i := 0 to n
      invariant next' == next + Matched(pages, chain[..i])
    {
      var id1 := NodeKey(docId, chunks[i].pageRange);
      var id2 := NodeKey(docId, chunks[i + 1].pageRange);
      assert chain[i] == NextEdge(id1, id2);
      MatchedNext(pages, chain, i, next, next');
      if PageExists(pages, id1) && PageExists(pages, id2) {
        next' := next' + [NextEdge(id1, id2)];
      }
    }
    assert chain[..n] == chain;
  }

  /** The sequential-link loop of phase 3: a NEXT_PAGE relationship from every chunk's node
      to the next chunk's node, when `MATCH` finds both. */
  method CreateSequentialEdges(st: Store, docId: string, chunks: seq<ChunkRecord>) returns (st': Store)
    requires RangesNonEmpty(chunks)
    ensures st' == st.(next := st.next + Matched(st.pages, ChainEdges(docId, chunks)))
  {
    KeysOfKeys(docId, chunks);
    var next := LinkChain(st.next, st.pages, docId, chunks, Keys(docId, chunks));
    st' := st.(next := next);
  }

  // ---------------------------------------------------------------------------
  // Phase 3: RELATED_TO
  // ---------------------------------------------------------------------------

  /** Forward distance, exclusive, of the similarity window: `range(i + 2, min(i + 6, n))`. */
  const WindowSpan: nat := 6

  /** A word that counts as a keyword: alphabetic and at least `MinWordLength` long. */
  predicate IsKeyword(w: string)
  {
    |w| >= MinWordLength && IsAlpha(w)
  }

  /** The keyword set of `ws`, kept as a sequence without repetitions (in the order of first
      occurrence): `set(w.lower() for w in ws if len(w) >= MinWordLength and w.isalpha())`. */
  function KeywordList(ws: seq<string>): (r: seq<string>)
    ensures NoDuplicates(r)
  {
    if ws == [] then []
    else
      var r := KeywordList(ws[..|ws| - 1]);
      var w := ws[|ws| - 1];
      if IsKeyword(w) && Lower(w) !in r then r + [Lower(w)] else r
  }

  /** The keywords of a chunk's text. */
  function Keywords(text: string): seq<string>
  {
    KeywordList(Words(text))
  }

  /** The keywords are exactly the lower-cased keyword words. */
  lemma {:induction false} KeywordListMembers(ws: seq<string>, w: string)
    ensures w in KeywordList(ws) <==> exists v :: v in ws && IsKeyword(v) && w == Lower(v)
    decreases |ws|
  {
    if ws != [] {
      var init := ws[..|ws| - 1];
      assert ws == init + [ws[|ws| - 1]];
      KeywordListMembers(init, w);
      if exists v :: v in ws && IsKeyword(v) && w == Lower(v) {
        var v :| v in ws && IsKeyword(v) && w == Lower(v);
        if v != ws[|ws| - 1] {
          assert v in init;
        }
      }
    }
  }

  /** Every keyword is a lower-case alphabetic word of at least `MinWordLength` letters. */
  lemma KeywordShape(text: string, w: string)
    requires w in Keywords(text)
    ensures |w| >= MinWordLength && IsAlpha(w)
    ensures forall k :: 0 <= k < |w| ==> 'a' <= w[k] <= 'z'
  {
    KeywordListMembers(Words(text), w);
    var v :| v in Words(text) && IsKeyword(v) && w == Lower(v);
    forall k | 0 <= k < |w| ensures 'a' <= w[k] <= 'z' {
      assert IsLetter(v[k]);
    }
  }

  /** `words1 & words2` on keyword sets kept without repetitions; its length is the size
      of the intersection. */
  function Common(a: seq<string>, b: seq<string>): (r: seq<string>)
    ensures forall w :: w in r <==> w in a && w in b
    ensures NoDuplicates(a) ==> NoDuplicates(r)
  {
    if a == [] then []
    else
      var w := a[|a| - 1];
      var init := a[..|a| - 1];
      assert a == init + [w];
      var r := Common(init, b);
      assert NoDuplicates(a) ==> NoDuplicates(init) && w !in init;
      r + (if w in b then [w] else [])
  }

  /** The keywords two chunks share. */
  function SharedKeywords(a: ChunkRecord, b: ChunkRecord): seq<string>
  {
    Common(Keywords(a.text), Keywords(b.text))
  }

  /** A shared keyword is a keyword of both texts, and the list has no repetitions. */
  lemma SharedKeywordsMeans(a: ChunkRecord, b: ChunkRecord, w: string)
    ensures NoDuplicates(SharedKeywords(a, b))
    ensures w in SharedKeywords(a, b) <==> w in Keywords(a.text) && w in Keywords(b.text)
  {
  }

  /** The window end for chunk `i` of `n`: `min(i + WindowSpan, n)`. */
  function WindowEnd(i: nat, n: nat): (e: nat)
    ensures e <= n
  {
    if i + WindowSpan < n then i + WindowSpan else n
  }

  /** The pairs `(i, j)` with `i + 2 <= j < hi` that `link` accepts, in increasing `j`. */
  function RowPairs(link: (nat, nat) -> bool, i: nat, hi: nat): seq<(nat, nat)>
    decreases hi
  {
    if hi <= i + 2 then []
    else RowPairs(link, i, hi - 1) + (if link(i, hi - 1) then [(i, hi - 1)] else [])
  }

  lemma {:induction false} RowPairsSound(link: (nat, nat) -> bool, i: nat, hi: nat)
    ensures forall p :: p in RowPairs(link, i, hi) ==> p.0 == i && i + 2 <= p.1 < hi && link(p.0, p.1)
    decreases hi
  {
    if hi > i + 2 {
      RowPairsSound(link, i, hi - 1);
    }
  }

  /** The pairs the nested window loops over `n` chunks accept while the outer index is
      below `m`, in loop order. */
  function PairsBefore(link: (nat, nat) -> bool, n: nat, m: nat): seq<(nat, nat)>
  {
    if m == 0 then [] else PairsBefore(link, n, m - 1) + RowPairs(link, m - 1, WindowEnd(m - 1, n))
  }

  lemma {:induction false} PairsBeforeSound(link: (nat, nat) -> bool, n: nat, m: nat)
    ensures forall p :: p in PairsBefore(link, n, m) ==>
      p.0 < m && p.0 + 2 <= p.1 < WindowEnd(p.0, n) && link(p.0, p.1)
  {
    if m > 0 {
      PairsBeforeSound(link, n, m - 1);
      RowPairsSound(link, m - 1, WindowEnd(m - 1, n));
    }
  }

  lemma {:induction false} RowPairsComplete(link: (nat, nat) -> bool, i: nat, hi: nat, j: nat)
    requires i + 2 <= j < hi && link(i, j)
    ensures (i, j) in RowPairs(link, i, hi)
    decreases hi
  {
    var rest := RowPairs(link, i, hi - 1);
    assert RowPairs(link, i, hi) == rest + (if link(i, hi - 1) then [(i, hi - 1)] else []);
    if j < hi - 1 {
      RowPairsComplete(link, i, hi - 1, j);
      assert (i, j) in rest;
    }
  }

  /** The window loops visit exactly the pairs with `j` two to five places after `i`. */
  lemma {:induction false} PairsExactly(link: (nat, nat) -> bool, n: nat, m: nat, i: nat, j: nat)
    ensures (i, j) in PairsBefore(link, n, m) <==> (i < m && i + 2 <= j < WindowEnd(i, n) && link(i, j))
    decreases m
  {
    PairsBeforeSound(link, n, m);
    if m > 0 && i < m && i + 2 <= j < WindowEnd(i, n) && link(i, j) {
      var before := PairsBefore(link, n, m - 1);
      var row := RowPairs(link, m - 1, WindowEnd(m - 1, n));
      assert PairsBefore(link, n, m) == before + row;
      if i < m - 1 {
        PairsExactly(link, n, m - 1, i, j);
        assert (i, j) in before;
      } else {
        RowPairsComplete(link, i, WindowEnd(i, n), j);
        assert (i, j) in row;
      }
    }
  }

  /** The pairs in loop order form a strictly increasing sequence (ordered by `i`, then by
      `j`), so no pair is linked twice. */
  lemma {:induction false} PairsOrdered(link: (nat, nat) -> bool, n: nat, m: nat)
    ensures NoDuplicates(PairsBefore(link, n, m))
    decreases m
  {
    if m > 0 {
      var before := PairsBefore(link, n, m - 1);
      var row := RowPairs(link, m - 1, WindowEnd(m - 1, n));
      PairsOrdered(link, n, m - 1);
      PairsBeforeSound(link, n, m - 1);
      RowOrdered(link, m - 1, WindowEnd(m - 1, n));
      RowPairsSound(link, m - 1, WindowEnd(m - 1, n));
      var all := before + row;
      forall a, b | 0 <= a < b < |all| ensures all[a] != all[b] {
        if b >= |before| && a < |before| {
          assert all[a] in before && all[b] in row;
        } else if a >= |before| {
          assert all[a] == row[a - |before|] && all[b] == row[b - |before|];
        }
      }
    }
  }

  lemma {:induction false} RowOrdered(link: (nat, nat) -> bool, i: nat, hi: nat)
    ensures NoDuplicates(RowPairs(link, i, hi))
    decreases hi
  {
    if hi > i + 2 {
      RowOrdered(link, i, hi - 1);
      RowPairsSound(link, i, hi - 1);
    }
  }

  /** Chunks `i` and `j` of a document get a RELATED_TO relationship when they share at least
      `SimilarityThreshold` keywords and `MATCH` finds both their nodes in `pages`. */
  predicate Linked(pages: seq<PageNode>, docId: string, chunks: seq<ChunkRecord>, i: nat, j: nat)
    requires RangesNonEmpty(chunks) && i < |chunks| && j < |chunks|
  {
    && |SharedKeywords(chunks[i], chunks[j])| >= SimilarityThreshold
    && PageExists(pages, Key(docId, chunks, i))
    && PageExists(pages, Key(docId, chunks, j))
  }

  /** `kw` holds `min(limit, |common|)` distinct elements of `common`: what
      `list(common)[:limit]` promises whatever order the set is listed in. */
  predicate Picked(kw: seq<string>, common: seq<string>, limit: nat)
  {
    && |kw| == (if |common| < limit then |common| else limit)
    && NoDuplicates(kw)
    && forall w :: w in kw ==> w in common
  }

  /** The RELATED_TO relationship of pair `(i, j)`: from chunk `i` to chunk `j`, with the
      first `MaxSharedKeywords` shared keywords and the page distance. */
  function RelatedEdgeOf(docId: string, chunks: seq<ChunkRecord>, i: nat, j: nat): RelatedEdge
    requires i < |chunks| && j < |chunks| && RangesNonEmpty(chunks)
  {
    RelatedEdge(Key(docId, chunks, i), Key(docId, chunks, j),
                Take(SharedKeywords(chunks[i], chunks[j]), MaxSharedKeywords),
                chunks[j].pageNum - chunks[i].pageNum)
  }

  /** The keywords stored on a relationship are at most `MaxSharedKeywords` distinct shared
      keywords, as many as there are up to that bound. */
  lemma RelatedKeywordsPicked(docId: string, chunks: seq<ChunkRecord>, i: nat, j: nat)
    requires i < |chunks| && j < |chunks| && RangesNonEmpty(chunks)
    ensures Picked(RelatedEdgeOf(docId, chunks, i, j).keywords, SharedKeywords(chunks[i], chunks[j]), MaxSharedKeywords)
  {
    var common := SharedKeywords(chunks[i], chunks[j]);
    var kw := Take(common, MaxSharedKeywords);
    forall w | w in kw ensures w in common {
      var k :| 0 <= k < |kw| && kw[k] == w;
      assert common[k] == w;
    }
  }

  // The similarity loop reads, for every chunk, its keywords, its node id and its page
  // number. The loop's specification is stated over those three sequences, computed once.

  function KeywordLists(chunks: seq<ChunkRecord>): (kws: seq<seq<string>>)
    ensures |kws| == |chunks| && forall k :: 0 <= k < |chunks| ==> kws[k] == Keywords(chunks[k].text)
  {
    seq(|chunks|, k requires 0 <= k < |chunks| => Keywords(chunks[k].text))
  }

  function RecordPageNums(chunks: seq<ChunkRecord>): (nums: seq<nat>)
    ensures |nums| == |chunks| && forall k :: 0 <= k < |chunks| ==> nums[k] == chunks[k].pageNum
  {
    seq(|chunks|, k requires 0 <= k < |chunks| => chunks[k].pageNum)
  }

  /** `kws`, `keys` and `nums` are the keywords, node ids and page numbers of `chunks`. */
  ghost predicate Prepared(docId: string, chunks: seq<ChunkRecord>, kws: seq<seq<string>>, keys: seq<string>, nums: seq<nat>)
  {
    && |kws| == |chunks| && |keys| == |chunks| && |nums| == |chunks|
    && forall k {:trigger chunks[k]} :: 0 <= k < |chunks| ==>
      && chunks[k].pageRange != []
      && kws[k] == Keywords(chunks[k].text)
      && keys[k] == NodeKey(docId, chunks[k].pageRange)
      && nums[k] == chunks[k].pageNum
  }

  lemma PreparedOf(docId: string, chunks: seq<ChunkRecord>)
    requires RangesNonEmpty(chunks)
    ensures Prepared(docId, chunks, KeywordLists(chunks), Keys(docId, chunks), RecordPageNums(chunks))
  {
  }

  /** `Linked` over the prepared sequences. */
  predicate LinkedAt(pages: seq<PageNode>, kws: seq<seq<string>>, keys: seq<string>, i: nat, j: nat)
  {
    && i < |kws| && j < |kws| && i < |keys| && j < |keys|
    && |Common(kws[i], kws[j])| >= SimilarityThreshold
    && PageExists(pages, keys[i]) && PageExists(pages, keys[j])
  }

  /** `RelatedEdgeOf` over the prepared sequences. */
  function RelatedAt(kws: seq<seq<string>>, keys: seq<string>, nums: seq<nat>, i: nat, j: nat): RelatedEdge
    requires i < |kws| && j < |kws| && i < |keys| && j < |keys| && i < |nums| && j < |nums|
  {
    RelatedEdge(keys[i], keys[j], Take(Common(kws[i], kws[j]), MaxSharedKeywords), nums[j] as int - nums[i] as int)
  }

  function LinkFn(pages: seq<PageNode>, kws: seq<seq<string>>, keys: seq<string>): (nat, nat) -> bool
  {
    (i: nat, j: nat) => LinkedAt(pages, kws, keys, i, j)
  }

  /** `RelatedAt` for every pair of indices (a placeholder outside the document, where the
      loops never go). */
  function EdgeFn(kws: seq<seq<string>>, keys: seq<string>, nums: seq<nat>): (nat, nat) -> RelatedEdge
  {
    (i: nat, j: nat) =>
      if i < |kws| && j < |kws| && i < |keys| && j < |keys| && i < |nums| && j < |nums|
      then RelatedAt(kws, keys, nums, i, j) else RelatedEdge("", "", [], 0)
  }

  /** On prepared sequences, `LinkedAt` is `Linked` and `RelatedAt` is `RelatedEdgeOf`. */
  lemma PreparedMeans(pages: seq<PageNode>, docId: string, chunks: seq<ChunkRecord>,
                      kws: seq<seq<string>>, keys: seq<string>, nums: seq<nat>, i: nat, j: nat)
    requires Prepared(docId, chunks, kws, keys, nums) && i < |chunks| && j < |chunks|
    ensures RangesNonEmpty(chunks)
    ensures LinkFn(pages, kws, keys)(i, j) == Linked(pages, docId, chunks, i, j)
    ensures EdgeFn(kws, keys, nums)(i, j) == RelatedEdgeOf(docId, chunks, i, j)
  {
  }

  /** The pairs of chunks the similarity loop links, in the order it links them. */
  function SimilarPairs(pages: seq<PageNode>, docId: string, chunks: seq<ChunkRecord>): seq<(nat, nat)>
    requires RangesNonEmpty(chunks)
  {
    PairsBefore(LinkFn(pages, KeywordLists(chunks), Keys(docId, chunks)), |chunks|, |chunks|)
  }

  /** A pair of chunks is linked exactly when the second lies two to five chunks after the
      first, they share at least `SimilarityThreshold` keywords and both nodes exist; and
      no pair is linked twice. */
  lemma SimilarPairsExactly(pages: seq<PageNode>, docId: string, chunks: seq<ChunkRecord>, i: nat, j: nat)
    requires RangesNonEmpty(chunks)
    ensures NoDuplicates(SimilarPairs(pages, docId, chunks))
    ensures (i, j) in SimilarPairs(pages, docId, chunks) <==>
      && i + 2 <= j < WindowEnd(i, |chunks|)
      && Linked(pages, docId, chunks, i, j)
  {
    var link := LinkFn(pages, KeywordLists(chunks), Keys(docId, chunks));
    PreparedOf(docId, chunks);
    PairsExactly(link, |chunks|, |chunks|, i, j);
    PairsOrdered(link, |chunks|, |chunks|);
    if i + 2 <= j < WindowEnd(i, |chunks|) {
      PreparedMeans(pages, docId, chunks, KeywordLists(chunks), Keys(docId, chunks), RecordPageNums(chunks), i, j);
    }
  }

  /** The relationships of `pairs` under `edge`, one each, in order. */
  function EdgesOf<E>(edge: (nat, nat) -> E, pairs: seq<(nat, nat)>): (r: seq<E>)
    ensures |r| == |pairs|
  {
    if pairs == [] then []
    else
      var p := pairs[|pairs| - 1];
      EdgesOf(edge, pairs[..|pairs| - 1]) + [edge(p.0, p.1)]
  }

  lemma {:induction false} EdgesOfAt<E>(edge: (nat, nat) -> E, pairs: seq<(nat, nat)>, k: nat)
    requires k < |pairs|
    ensures EdgesOf(edge, pairs)[k] == edge(pairs[k].0, pairs[k].1)
    decreases |pairs|
  {
    if k < |pairs| - 1 {
      EdgesOfAt(edge, pairs[..|pairs| - 1], k);
    }
  }

  lemma EdgesOfAppend<E>(edge: (nat, nat) -> E, pairs: seq<(nat, nat)>, p: (nat, nat))
    ensures EdgesOf(edge, pairs + [p]) == EdgesOf(edge, pairs) + [edge(p.0, p.1)]
  {
    assert (pairs + [p])[..|pairs|] == pairs;
  }

  lemma {:induction false} EdgesOfConcat<E>(edge: (nat, nat) -> E, a: seq<(nat, nat)>, b: seq<(nat, nat)>)
    ensures EdgesOf(edge, a + b) == EdgesOf(edge, a) + EdgesOf(edge, b)
    decreases |b|
  {
    if b != [] {
      var init := b[..|b| - 1];
      var p := b[|b| - 1];
      assert a + b == (a + init) + [p];
      assert b == init + [p];
      EdgesOfConcat(edge, a, init);
      EdgesOfAppend(edge, a + init, p);
      EdgesOfAppend(edge, init, p);
      ConcatAssoc(EdgesOf(edge, a), EdgesOf(edge, init), [edge(p.0, p.1)]);
    } else {
      assert a + b == a;
    }
  }

  /** `link` and `edge` are `LinkedAt` and `RelatedAt` on every pair of chunks. */
  ghost predicate Agrees(link: (nat, nat) -> bool, edge: (nat, nat) -> RelatedEdge,
                         pages: seq<PageNode>, kws: seq<seq<string>>, keys: seq<string>, nums: seq<nat>)
  {
    && |keys| == |kws| && |nums| == |kws|
    && forall i: nat, j: nat {:trigger LinkedAt(pages, kws, keys, i, j)} :: i < |kws| && j < |kws| ==>
      link(i, j) == LinkedAt(pages, kws, keys, i, j) && edge(i, j) == RelatedAt(kws, keys, nums, i, j)
  }

  lemma AgreesFn(pages: seq<PageNode>, kws: seq<seq<string>>, keys: seq<string>, nums: seq<nat>)
    requires |keys| == |kws| && |nums| == |kws|
    ensures Agrees(LinkFn(pages, kws, keys), EdgeFn(kws, keys, nums), pages, kws, keys, nums)
  {
  }

  /** The RELATED_TO relationships phase 3 creates for a document over `pages`. */
  function SimilarEdges(pages: seq<PageNode>, docId: string, chunks: seq<ChunkRecord>): (r: seq<RelatedEdge>)
    requires RangesNonEmpty(chunks)
  {
    EdgesOf(EdgeFn(KeywordLists(chunks), Keys(docId, chunks), RecordPageNums(chunks)), SimilarPairs(pages, docId, chunks))
  }

  /** The created relationships, one per linked pair in loop order: each goes from the node
      of the earlier chunk to the node of the later one and carries up to
      `MaxSharedKeywords` of their shared keywords and their page distance. */
  lemma SimilarEdgesMeans(pages: seq<PageNode>, docId: string, chunks: seq<ChunkRecord>, k: nat)
    requires RangesNonEmpty(chunks)
    requires k < |SimilarPairs(pages, docId, chunks)|
    ensures |SimilarEdges(pages, docId, chunks)| == |SimilarPairs(pages, docId, chunks)|
    ensures var (i, j) := SimilarPairs(pages, docId, chunks)[k];
      && i + 2 <= j < |chunks|
      && var e := SimilarEdges(pages, docId, chunks)[k];
      && e.from == Key(docId, chunks, i) && e.to == Key(docId, chunks, j)
      && e.distance == chunks[j].pageNum - chunks[i].pageNum
      && Picked(e.keywords, SharedKeywords(chunks[i], chunks[j]), MaxSharedKeywords)
  {
    var pairs := SimilarPairs(pages, docId, chunks);
    var kws, keys, nums := KeywordLists(chunks), Keys(docId, chunks), RecordPageNums(chunks);
    var (i, j) := pairs[k];
    assert pairs[k] in pairs;
    PairsBeforeSound(LinkFn(pages, kws, keys), |chunks|, |chunks|);
    PreparedOf(docId, chunks);
    EdgesOfAt(EdgeFn(kws, keys, nums), pairs, k);
    PreparedMeans(pages, docId, chunks, kws, keys, nums, i, j);
    RelatedKeywordsPicked(docId, chunks, i, j);
  }

  /** One step of the inner loop keeps `cur` equal to `base` followed by the relationships of
      the row's pairs so far. */
  lemma RowNext<E>(link: (nat, nat) -> bool, edge: (nat, nat) -> E, i: nat, j: nat,
                   linked: bool, base: seq<E>, cur: seq<E>, rel: E)
    requires i + 2 <= j && cur == base + EdgesOf(edge, RowPairs(link, i, j))
    requires linked == link(i, j) && rel == edge(i, j)
    ensures (if linked then cur + [rel] else cur) == base + EdgesOf(edge, RowPairs(link, i, j + 1))
  {
    var before := RowPairs(link, i, j);
    if linked {
      EdgesOfAppend(edge, before, (i, j));
      ConcatAssoc(base, EdgesOf(edge, before), [rel]);
    } else {
      assert RowPairs(link, i, j + 1) == before + [] == before;
    }
  }

  /** One step of the outer loop: appending row `i` extends the relationships to the rows
      before `i + 1`. */
  lemma RowsNext<E>(link: (nat, nat) -> bool, edge: (nat, nat) -> E, n: nat, i: nat, base: seq<E>, before: seq<E>)
    requires before == base + EdgesOf(edge, PairsBefore(link, n, i))
    ensures before + EdgesOf(edge, RowPairs(link, i, WindowEnd(i, n)))
         == base + EdgesOf(edge, PairsBefore(link, n, i + 1))
  {
    var done := PairsBefore(link, n, i);
    var row := RowPairs(link, i, WindowEnd(i, n));
    EdgesOfConcat(edge, done, row);
    ConcatAssoc(base, EdgesOf(edge, done), EdgesOf(edge, row));
  }

  /** The body of the inner loop for the pair `(i, j)`: whether the pair is linked, and the
      relationship created for it. */
  method RelatePair(pages: seq<PageNode>, docId: string, chunks: seq<ChunkRecord>, words1: seq<string>, i: nat, j: nat,
                    ghost kws: seq<seq<string>>, ghost keys: seq<string>, ghost nums: seq<nat>,
                    ghost link: (nat, nat) -> bool, ghost edge: (nat, nat) -> RelatedEdge)
    returns (linked: bool, rel: RelatedEdge)
    requires Prepared(docId, chunks, kws, keys, nums) && Agrees(link, edge, pages, kws, keys, nums)
    requires i < |chunks| && j < |chunks| && words1 == kws[i]
    ensures linked == link(i, j) && rel == edge(i, j)
  {
    var words2 := Keywords(chunks[j].text);
    var common := Common(words1, words2);
    var id1 := NodeKey(docId, chunks[i].pageRange);
    var id2 := NodeKey(docId, chunks[j].pageRange);
    linked := |common| >= SimilarityThreshold && PageExists(pages, id1) && PageExists(pages, id2);
    rel := RelatedEdge(id1, id2, Take(common, MaxSharedKeywords), chunks[j].pageNum - chunks[i].pageNum);
    assert linked == LinkedAt(pages, kws, keys, i, j) && rel == RelatedAt(kws, keys, nums, i, j);
  }

  /** The `if` of the inner loop: the relationship is recorded when the pair is linked. */
  method RecordIfLinked<E>(cur: seq<E>, linked: bool, rel: E, ghost link: (nat, nat) -> bool, ghost edge: (nat, nat) -> E,
                           ghost i: nat, ghost j: nat, ghost base: seq<E>)
    returns (next: seq<E>)
    requires i + 2 <= j && cur == base + EdgesOf(edge, RowPairs(link, i, j))
    requires linked == link(i, j) && rel == edge(i, j)
    ensures next == base + EdgesOf(edge, RowPairs(link, i, j + 1))
  {
    RowNext(link, edge, i, j, linked, base, cur, rel);
    next := cur;
    if linked {
      next := cur + [rel];
    }
  }

  /** The inner loop over `j` for chunk `i`: appends the relationships of row `i` of the
      window to `related`. */
  method RelateRow(related: seq<RelatedEdge>, pages: seq<PageNode>, docId: string, chunks: seq<ChunkRecord>,
                   words1: seq<string>, i: nat,
                   ghost kws: seq<seq<string>>, ghost keys: seq<string>, ghost nums: seq<nat>,
                   ghost link: (nat, nat) -> bool, ghost edge: (nat, nat) -> RelatedEdge)
    returns (related': seq<RelatedEdge>)
    requires Prepared(docId, chunks, kws, keys, nums) && Agrees(link, edge, pages, kws, keys, nums)
    requires i < |chunks| && words1 == kws[i]
    ensures related' == related + EdgesOf(edge, RowPairs(link, i, WindowEnd(i, |chunks|)))
  {
    related' := related;
    var hi := WindowEnd(i, |chunks|);
    var lo := if i + 2 < hi then i + 2 else hi;
    for j := lo to hi
      invariant related' == related + EdgesOf(edge, RowPairs(link, i, j))
    {
      var linked, rel := RelatePair(pages, docId, chunks, words1, i, j, kws, keys, nums, link, edge);
      related' := RecordIfLinked(related', linked, rel, link, edge, i, j, related);
    }
  }

  /** The outer loop over `i`. */
  method RelateRows(related: seq<RelatedEdge>, pages: seq<PageNode>, docId: string, chunks: seq<ChunkRecord>,
                    ghost kws: seq<seq<string>>, ghost keys: seq<string>, ghost nums: seq<nat>,
                    ghost link: (nat, nat) -> bool, ghost edge: (nat, nat) -> RelatedEdge)
    returns (related': seq<RelatedEdge>)
    requires Prepared(docId, chunks, kws, keys, nums) && Agrees(link, edge, pages, kws, keys, nums)
    ensures related' == related + EdgesOf(edge, PairsBefore(link, |chunks|, |chunks|))
  {
    related' := related;
    for i := 0 to |chunks|
      invariant related' == related + EdgesOf(edge, PairsBefore(link, |chunks|, i))
    {
      var words1 := Keywords(chunks[i].text);
      RowsNext(link, edge, |chunks|, i, related, related');
      related' := RelateRow(related', pages, docId, chunks, words1, i, kws, keys, nums, link, edge);
    }
  }

  /** The similarity loop of phase 3: for every chunk `i`, the chunks `j` from `i + 2` up
      to `i + 5` sharing at least `SimilarityThreshold` keywords get a RELATED_TO
      relationship from `i`. */
  method CreateSimilarityEdges(st: Store, docId: string, chunks: seq<ChunkRecord>) returns (st': Store)
    requires RangesNonEmpty(chunks)
    ensures st' == st.(related := st.related + SimilarEdges(st.pages, docId, chunks))
  {
    ghost var kws, keys, nums := KeywordLists(chunks), Keys(docId, chunks), RecordPageNums(chunks);
    PreparedOf(docId, chunks);
    AgreesFn(st.pages, kws, keys, nums);
    var related := RelateRows(st.related, st.pages, docId, chunks, kws, keys, nums,
                              LinkFn(st.pages, kws, keys), EdgeFn(kws, keys, nums));
    st' := st.(related := related);
  }

  // ---------------------------------------------------------------------------
  // Phase 3: one document, then every document
  // ---------------------------------------------------------------------------

  /** Once a document's Page nodes have been created, `MATCH` finds the node of each of its
      chunks, whatever nodes came before. */
  lemma DocumentNodesExist(pages: seq<PageNode>, docId: string, chunks: seq<ChunkRecord>, k: nat)
    requires RangesNonEmpty(chunks) && k < |chunks|
    ensures PageExists(pages + PageNodes(docId, chunks), Key(docId, chunks, k))
  {
    var all := pages + PageNodes(docId, chunks);
    assert all[|pages| + k] == PageNodes(docId, chunks)[k];
    assert all[|pages| + k] in all;
    PageExistsMeans(all, Key(docId, chunks, k));
  }

  /** After the document's Page nodes, every sequential relationship finds both its nodes:
      the document gets exactly one NEXT_PAGE relationship per consecutive pair of chunks. */
  lemma SequentialAfterPages(pages: seq<PageNode>, docId: string, chunks: seq<ChunkRecord>)
    requires RangesNonEmpty(chunks)
    ensures Matched(pages + PageNodes(docId, chunks), ChainEdges(docId, chunks)) == ChainEdges(docId, chunks)
  {
    var all := pages + PageNodes(docId, chunks);
    var chain := ChainEdges(docId, chunks);
    forall e | e in chain
      ensures PageExists(all, e.from) && PageExists(all, e.to)
    {
      var i :| 0 <= i < |chain| && chain[i] == e;
      DocumentNodesExist(pages, docId, chunks, i);
      DocumentNodesExist(pages, docId, chunks, i + 1);
    }
    MatchedAll(all, chain);
  }

  /** After the document's Page nodes, a pair of its chunks is linked exactly when the second
      lies two to five chunks after the first and they share at least
      `SimilarityThreshold` keywords. */
  lemma SimilarAfterPages(pages: seq<PageNode>, docId: string, chunks: seq<ChunkRecord>, i: nat, j: nat)
    requires RangesNonEmpty(chunks)
    ensures (i, j) in SimilarPairs(pages + PageNodes(docId, chunks), docId, chunks) <==>
      && i + 2 <= j < WindowEnd(i, |chunks|)
      && |SharedKeywords(chunks[i], chunks[j])| >= SimilarityThreshold
  {
    var all := pages + PageNodes(docId, chunks);
    SimilarPairsExactly(all, docId, chunks, i, j);
    if i + 2 <= j < WindowEnd(i, |chunks|) {
      DocumentNodesExist(pages, docId, chunks, i);
      DocumentNodesExist(pages, docId, chunks, j);
    }
  }

  /** Page ranges that together repeat no page start on distinct pages. */
  lemma {:induction false} DistinctFirstPages(ranges: seq<seq<nat>>, i: nat, j: nat)
    requires forall k :: 0 <= k < |ranges| ==> ranges[k] != []
    requires NoDuplicates(Flatten(ranges)) && i < j < |ranges|
    ensures ranges[i][0] != ranges[j][0]
    decreases |ranges|
  {
    var all, rest := Flatten(ranges), Flatten(ranges[1..]);
    assert all == ranges[0] + rest;
    if i == 0 {
      assert ranges[1..][j - 1] == ranges[j];
      FlattenMember(ranges[1..], j - 1, ranges[j][0]);
      var p :| 0 <= p < |rest| && rest[p] == ranges[j][0];
      assert all[|ranges[0]| + p] == ranges[j][0] && all[0] == ranges[i][0];
    } else {
      forall a, b | 0 <= a < b < |rest|
        ensures rest[a] != rest[b]
      {
        assert all[|ranges[0]| + a] == rest[a] && all[|ranges[0]| + b] == rest[b];
      }
      DistinctFirstPages(ranges[1..], i - 1, j - 1);
    }
  }

  /** Ranges that start on different pages give different node ids. */
  lemma NodeKeyDistinct(docId: string, a: seq<nat>, b: seq<nat>)
    requires a != [] && b != [] && a[0] != b[0]
    ensures NodeKey(docId, a) != NodeKey(docId, b)
  {
    var n := |docId + "_page_"|;
    assert PageRangeStr(a) == NodeKey(docId, a)[n..];
    assert PageRangeStr(b) == NodeKey(docId, b)[n..];
    RangeStrRoundTrip(a);
    RangeStrRoundTrip(b);
  }

  /** Chunks whose ranges together repeat no page get pairwise distinct node ids. */
  lemma KeysDistinct(docId: string, rs: seq<ChunkRecord>)
    requires RangesNonEmpty(rs) && NoDuplicates(Flatten(RecordRanges(rs)))
    ensures NoDuplicates(Keys(docId, rs))
  {
    forall i, j | 0 <= i < j < |rs|
      ensures Keys(docId, rs)[i] != Keys(docId, rs)[j]
    {
      DistinctFirstPages(RecordRanges(rs), i, j);
      NodeKeyDistinct(docId, rs[i].pageRange, rs[j].pageRange);
    }
  }

  /** When no page marker of a file repeats, the chunks of its document get pairwise
      distinct node ids, so every `MATCH` by one of them finds exactly one Page node of
      the document. */
  lemma DistinctMarkersDistinctKeys(docId: string, content: string, firstId: nat)
    requires NoDuplicates(MarkerNumbers(SplitLines(content)))
    ensures var rs := Numbered(docId, ChunksOf(content, MinWords), firstId);
      RangesNonEmpty(rs) && NoDuplicates(Keys(docId, rs))
  {
    var cs := ChunksOf(content, MinWords);
    ChunksCoverMarkers(content, MinWords);
    NumberedRanges(docId, cs, firstId);
    KeysDistinct(docId, Numbered(docId, cs, firstId));
  }

  lemma NumberedRanges(docId: string, cs: seq<Chunk>, firstId: nat)
    requires forall k :: 0 <= k < |cs| ==> cs[k].pageRange != []
    ensures var rs := Numbered(docId, cs, firstId);
      RangesNonEmpty(rs) && RecordRanges(rs) == RangesOf(cs)
  {
  }

  /** The body of the phase-3 loop for one document: its Page nodes with their CONTAINS
      relationships, then a NEXT_PAGE relationship between every two consecutive chunks,
      then the RELATED_TO relationships of the similarity window. */
  method LinkDocument(st: Store, docId: string, chunks: seq<ChunkRecord>) returns (st': Store)
    requires RangesNonEmpty(chunks)
    ensures st'.documents == st.documents
    ensures st'.pages == st.pages + PageNodes(docId, chunks)
    ensures st'.next == st.next + ChainEdges(docId, chunks)
    ensures st'.related == st.related + SimilarEdges(st'.pages, docId, chunks)
    ensures forall e :: e in st'.contains <==>
      e in st.contains || (HasDocument(st, docId) && e in ContainsFor(docId, chunks))
    ensures NoDuplicates(st.contains) ==> NoDuplicates(st'.contains)
  {
    st' := CreatePageNodes(st, docId, chunks);
    SequentialAfterPages(st.pages, docId, chunks);
    st' := CreateSequentialEdges(st', docId, chunks);
    st' := CreateSimilarityEdges(st', docId, chunks);
  }

  /** Every document of `docs` has chunks that each cover a page. */
  predicate AllRangesNonEmpty(docs: seq<DocChunks>)
  {
    forall d :: 0 <= d < |docs| ==> RangesNonEmpty(docs[d].records)
  }

  /** The Page nodes phase 3 creates for the first `m` documents, document by document. */
  function AllPageNodes(docs: seq<DocChunks>, m: nat): seq<PageNode>
    requires AllRangesNonEmpty(docs) && m <= |docs|
  {
    if m == 0 then [] else AllPageNodes(docs, m - 1) + PageNodes(docs[m - 1].docId, docs[m - 1].records)
  }

  /** The NEXT_PAGE relationships phase 3 creates for the first `m` documents. */
  function AllChainEdges(docs: seq<DocChunks>, m: nat): seq<NextEdge>
    requires AllRangesNonEmpty(docs) && m <= |docs|
  {
    if m == 0 then [] else AllChainEdges(docs, m - 1) + ChainEdges(docs[m - 1].docId, docs[m - 1].records)
  }

  /** The RELATED_TO relationships phase 3 creates for the first `m` documents over a store
      whose Page nodes were `pages`: each document's pairs are chosen once its own nodes
      exist. */
  function AllSimilarEdges(pages: seq<PageNode>, docs: seq<DocChunks>, m: nat): seq<RelatedEdge>
    requires AllRangesNonEmpty(docs) && m <= |docs|
  {
    if m == 0 then []
    else
      AllSimilarEdges(pages, docs, m - 1)
        + SimilarEdges(pages + AllPageNodes(docs, m), docs[m - 1].docId, docs[m - 1].records)
  }

  /** The CONTAINS relationships phase 3 asks for among the first `m` documents: those of
      every document whose node exists in `st`. */
  function AllContains(st: Store, docs: seq<DocChunks>, m: nat): seq<ContainsEdge>
    requires AllRangesNonEmpty(docs) && m <= |docs|
  {
    if m == 0 then []
    else
      var doc := docs[m - 1];
      AllContains(st, docs, m - 1) + (if HasDocument(st, doc.docId) then ContainsFor(doc.docId, doc.records) else [])
  }

  /** The chunk records phase 1 hands on all cover at least one page. */
  lemma IndexedRangesNonEmpty(files: seq<SourceFile>)
    ensures AllRangesNonEmpty(DocsUpTo(files, FileChunks(files), |files|))
  {
    var docs := DocsUpTo(files, FileChunks(files), |files|);
    forall g | 0 <= g < |docs|
      ensures RangesNonEmpty(docs[g].records)
    {
      IndexedDocument(files, |files|, g);
      PageWordCount(files[g].stem, files[g].content, |AllRecords(docs[..g])|);
    }
  }

  /** Handling document `d` as `LinkDocument` does extends the Page nodes and relationships
      of the first `d` documents to those of the first `d + 1`. */
  lemma LinkStep(st: Store, prev: Store, st': Store, docs: seq<DocChunks>, d: nat)
    requires AllRangesNonEmpty(docs) && d < |docs|
    requires prev.pages == st.pages + AllPageNodes(docs, d)
    requires prev.next == st.next + AllChainEdges(docs, d)
    requires prev.related == st.related + AllSimilarEdges(st.pages, docs, d)
    requires var doc := docs[d];
      && st'.pages == prev.pages + PageNodes(doc.docId, doc.records)
      && st'.next == prev.next + ChainEdges(doc.docId, doc.records)
      && st'.related == prev.related + SimilarEdges(st'.pages, doc.docId, doc.records)
    ensures st'.pages == st.pages + AllPageNodes(docs, d + 1)
    ensures st'.next == st.next + AllChainEdges(docs, d + 1)
    ensures st'.related == st.related + AllSimilarEdges(st.pages, docs, d + 1)
  {
    var doc := docs[d];
    ConcatAssoc(st.pages, AllPageNodes(docs, d), PageNodes(doc.docId, doc.records));
    ConcatAssoc(st.next, AllChainEdges(docs, d), ChainEdges(doc.docId, doc.records));
    ConcatAssoc(st.related, AllSimilarEdges(st.pages, docs, d), SimilarEdges(st'.pages, doc.docId, doc.records));
  }

  /** Handling document `d` adds its CONTAINS relationships when its node exists. */
  lemma ContainsStep(st: Store, prev: Store, st': Store, docs: seq<DocChunks>, d: nat)
    requires AllRangesNonEmpty(docs) && d < |docs|
    requires prev.documents == st.documents
    requires forall e :: e in prev.contains <==> e in st.contains || e in AllContains(st, docs, d)
    requires var doc := docs[d];
      forall e :: e in st'.contains <==>
        e in prev.contains || (HasDocument(prev, doc.docId) && e in ContainsFor(doc.docId, doc.records))
    ensures forall e :: e in st'.contains <==> e in st.contains || e in AllContains(st, docs, d + 1)
  {
  }

  /** Phase 3 over all documents, in order: every document's Page nodes, NEXT_PAGE and
      RELATED_TO relationships are appended to the store and its CONTAINS relationships
      are added; documents are left unchanged. */
  method BuildGraph(st: Store, docData: seq<DocChunks>) returns (st': Store)
    requires AllRangesNonEmpty(docData)
    ensures st'.documents == st.documents
    ensures st'.pages == st.pages + AllPageNodes(docData, |docData|)
    ensures st'.next == st.next + AllChainEdges(docData, |docData|)
    ensures st'.related == st.related + AllSimilarEdges(st.pages, docData, |docData|)
    ensures forall e :: e in st'.contains <==> e in st.contains || e in AllContains(st, docData, |docData|)
    ensures NoDuplicates(st.contains) ==> NoDuplicates(st'.contains)
  {
    st' := st;
    for d := 0 to |docData|
      invariant st'.documents == st.documents
      invariant st'.pages == st.pages + AllPageNodes(docData, d)
      invariant st'.next == st.next + AllChainEdges(docData, d)
      invariant st'.related == st.related + AllSimilarEdges(st.pages, docData, d)
      invariant forall e :: e in st'.contains <==> e in st.contains || e in AllContains(st, docData, d)
      invariant NoDuplicates(st.contains) ==> NoDuplicates(st'.contains)
    {
      var doc := docData[d];
      ghost var prev := st';
      st' := LinkDocument(st', doc.docId, doc.records);
      LinkStep(st, prev, st', docData, d);
      ContainsStep(st, prev, st', docData, d);
    }
  }
}
