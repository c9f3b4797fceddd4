/** The page segmenter of index_markdown.py (`split_by_pages`): a scan that cuts the
    text at standalone "Page N" lines into raw pages, then a pass that merges raw pages
    below `min_words` forward into multi-page chunks. */
module Segmenter {
  import opened Wrappers
  import opened Text
  import opened Seqs

  // ---------------------------------------------------------------------------
  // Page markers: ^Page\s+(\d+)\s*$ on the stripped line
  // ---------------------------------------------------------------------------

  /** `t` is "Page", a non-empty run of whitespace from index 4 to `k`, then digits to the end. */
  ghost predicate MarkerAt(t: string, k: int)
  {
    4 < k < |t| && t[..4] == "Page" && AllSpace(t[4..k]) && AllDigits(t[k..])
  }

  /** The page number of a marker line, or None for any other line. */
  function MarkerNumber(line: string): (r: Option<nat>)
  {
    MarkerValue(Strip(line))
  }

  /** The regex on an already stripped line. */
  function MarkerValue(t: string): (r: Option<nat>)
  {
    if |t| > 4 && t[..4] == "Page" then
      var k := |t| - |LStrip(t[4..])|;
      if 4 < k < |t| && AllDigits(t[k..]) then Some(DigitsValue(t[k..])) else None
    else None
  }

  /** A line is a page marker exactly when its stripped form is "Page", one or more
      whitespace characters and one or more digits; the number is the value of the digits. */
  lemma MarkerNumberMeaning(line: string)
    ensures MarkerNumber(line).Some? <==> exists k :: MarkerAt(Strip(line), k)
    ensures forall k :: MarkerAt(Strip(line), k) ==>
              AllDigits(Strip(line)[k..]) && MarkerNumber(line) == Some(DigitsValue(Strip(line)[k..]))
  {
    MarkerValueMeaning(Strip(line));
  }

  lemma MarkerValueMeaning(t: string)
    ensures MarkerValue(t).Some? <==> exists k :: MarkerAt(t, k)
    ensures forall k :: MarkerAt(t, k) ==> AllDigits(t[k..]) && MarkerValue(t) == Some(DigitsValue(t[k..]))
  {
    if MarkerValue(t).Some? {
      var k := |t| - |LStrip(t[4..])|;
      assert t[4..][..k - 4] == t[4..k];
      assert MarkerAt(t, k);
    }
    forall k | MarkerAt(t, k)
      ensures AllDigits(t[k..]) && MarkerValue(t) == Some(DigitsValue(t[k..]))
    {
      MarkerSplit(t, k);
    }
  }

  /** The whitespace run after "Page" ends exactly where the digits start. */
  lemma MarkerSplit(t: string, k: int)
    requires MarkerAt(t, k)
    ensures |t| - |LStrip(t[4..])| == k
  {
    var u := t[4..];
    var m := k - 4;
    assert AllSpace(u[..m]) by {
      assert u[..m] == t[4..k];
    }
    assert !IsSpace(u[m]) by { assert u[m] == t[k..][0]; }
    LStripSkips(u, m);
  }

  /** The numbers of the marker lines among `lines`, in order. */
  function MarkerNumbers(lines: seq<string>): seq<nat>
  {
    if lines == [] then []
    else
      var last := lines[|lines| - 1];
      MarkerNumbers(lines[..|lines| - 1]) + (if MarkerNumber(last).Some? then [MarkerNumber(last).value] else [])
  }

  // ---------------------------------------------------------------------------
  // Step 1: raw pages (index_markdown.py:51-87)
  // ---------------------------------------------------------------------------

  datatype RawPage = RawPage(pageNum: nat, text: string, wordCount: nat)

  /** What the scan has collected so far: closed pages, the lines of the open page and its number. */
  datatype ScanState = ScanState(pages: seq<RawPage>, current: seq<string>, currentNum: Option<nat>)

  /** Close the open page: its text is the stripped join of its lines; an empty text is dropped. */
  function Flush(pages: seq<RawPage>, current: seq<string>, num: Option<nat>): seq<RawPage>
  {
    if current != [] && num.Some? then
      var text := Strip(Join("\n", current));
      if text != [] then pages + [RawPage(num.value, text, |Words(text)|)] else pages
    else pages
  }

  /** One iteration of the line loop: a marker closes the open page and opens a new one
      whose first line is the marker; any other line joins the open page. */
  function Step(st: ScanState, line: string): ScanState
  {
    match MarkerNumber(line)
    case Some(n) => ScanState(Flush(st.pages, st.current, st.currentNum), [line], Some(n))
    case None => st.(current := st.current + [line])
  }

  function ScanLines(lines: seq<string>): ScanState
  {
    if lines == [] then ScanState([], [], None)
    else Step(ScanLines(lines[..|lines| - 1]), lines[|lines| - 1])
  }

  /** The raw pages of a document: the scan over its lines, then the trailing page. */
  function RawPagesOf(content: string): seq<RawPage>
  {
    var st := ScanLines(SplitLines(content));
    Flush(st.pages, st.current, st.currentNum)
  }

  function PageNums(ps: seq<RawPage>): (r: seq<nat>)
    ensures |r| == |ps| && forall k :: 0 <= k < |ps| ==> r[k] == ps[k].pageNum
  {
    seq(|ps|, k requires 0 <= k < |ps| => ps[k].pageNum)
  }

  lemma PageNumsConcat(ps: seq<RawPage>, qs: seq<RawPage>)
    ensures PageNums(ps + qs) == PageNums(ps) + PageNums(qs)
  {
  }

  /** A raw page as the scan produces it: non-empty stripped text and its word count. */
  predicate WellFormedPage(p: RawPage)
  {
    p.text != [] && !IsSpace(p.text[0]) && !IsSpace(p.text[|p.text| - 1])
    && p.wordCount == |Words(p.text)|
  }

  /** `split_by_pages`, first loop: cut the text into raw pages at marker lines. */
  method ExtractRawPages(content: string) returns (rawPages: seq<RawPage>)
    ensures rawPages == RawPagesOf(content)
  {
    var lines := SplitLines(content);
    rawPages := [];
    var currentPage: seq<string> := [];
    var currentPageNum: Option<nat> := None;
    for i := 0 to |lines|
      invariant ScanState(rawPages, currentPage, currentPageNum) == ScanLines(lines[..i])
    {
      var line := lines[i];
      assert lines[..i + 1][..i] == lines[..i];
      var pageMatch := MarkerNumber(line);
      if pageMatch.Some? {
        rawPages := ClosePage(rawPages, currentPage, currentPageNum);
        currentPageNum := pageMatch;
        currentPage := [line];
      } else {
        currentPage := currentPage + [line];
      }
    }
    assert lines[..|lines|] == lines;
    rawPages := ClosePage(rawPages, currentPage, currentPageNum);
  }

  /** Save the open page, unless there is none or its stripped text is empty. */
  method ClosePage(rawPages: seq<RawPage>, currentPage: seq<string>, currentPageNum: Option<nat>)
    returns (pages: seq<RawPage>)
    ensures pages == Flush(rawPages, currentPage, currentPageNum)
  {
    pages := rawPages;
    if currentPage != [] && currentPageNum.Some? {
      var pageText := Strip(Join("\n", currentPage));
      if pageText != [] {
        pages := pages + [RawPage(currentPageNum.value, pageText, |Words(pageText)|)];
      }
    }
  }

  /** A page opened by a marker line always has non-blank text, so it is never dropped. */
  lemma MarkerPageNotBlank(current: seq<string>)
    requires current != [] && MarkerNumber(current[0]).Some?
    ensures Strip(Join("\n", current)) != []
  {
    MarkerLineNotBlank(current[0]);
    JoinPrefix("\n", current);
    PrefixNotBlank(current[0], Join("\n", current));
  }

  lemma MarkerLineNotBlank(line: string)
    requires MarkerNumber(line).Some?
    ensures !AllSpace(line)
  {
    assert Strip(line) != [];
  }

  lemma PrefixNotBlank(a: string, b: string)
    requires !AllSpace(a) && |a| <= |b| && b[..|a|] == a
    ensures !AllSpace(b)
  {
    var k :| 0 <= k < |a| && !IsSpace(a[k]);
    assert b[k] == b[..|a|][k];
  }

  /** What holds of the scan state after any prefix of the lines. */
  ghost predicate ScanInvariant(st: ScanState, lines: seq<string>)
  {
    && (forall k :: 0 <= k < |st.pages| ==> WellFormedPage(st.pages[k]))
    && (st.currentNum.None? ==> st.pages == [] && MarkerNumbers(lines) == [])
    && (st.currentNum.Some? ==>
          st.current != [] && MarkerNumber(st.current[0]) == st.currentNum
          && PageNums(st.pages) + [st.currentNum.value] == MarkerNumbers(lines))
  }

  /** Closing a page opened by a marker always adds exactly that page, well formed. */
  lemma FlushWellFormed(st: ScanState)
    requires forall k :: 0 <= k < |st.pages| ==> WellFormedPage(st.pages[k])
    requires st.currentNum.Some? ==> st.current != [] && MarkerNumber(st.current[0]) == st.currentNum
    ensures var r := Flush(st.pages, st.current, st.currentNum);
      && (forall k :: 0 <= k < |r| ==> WellFormedPage(r[k]))
      && PageNums(r) == PageNums(st.pages) + (if st.currentNum.Some? then [st.currentNum.value] else [])
  {
    if st.currentNum.Some? {
      MarkerPageNotBlank(st.current);
      var text := Strip(Join("\n", st.current));
      FlushAppends(st.pages, text, st.currentNum.value);
      assert Flush(st.pages, st.current, st.currentNum) == st.pages + [RawPage(st.currentNum.value, text, |Words(text)|)];
    }
  }

  lemma FlushAppends(pages: seq<RawPage>, text: string, n: nat)
    requires text != [] && !IsSpace(text[0]) && !IsSpace(text[|text| - 1])
    requires forall k :: 0 <= k < |pages| ==> WellFormedPage(pages[k])
    ensures var r := pages + [RawPage(n, text, |Words(text)|)];
      && (forall k :: 0 <= k < |r| ==> WellFormedPage(r[k]))
      && PageNums(r) == PageNums(pages) + [n]
  {
    var p := RawPage(n, text, |Words(text)|);
    var r := pages + [p];
    forall k | 0 <= k < |r| ensures WellFormedPage(r[k]) {
      if k < |pages| {
        assert r[k] == pages[k];
      } else {
        assert r[k] == p;
      }
    }
    PageNumsConcat(pages, [p]);
  }

  lemma {:induction false} ScanLinesInvariant(lines: seq<string>)
    ensures ScanInvariant(ScanLines(lines), lines)
  {
    if lines != [] {
      var init := lines[..|lines| - 1];
      var line := lines[|lines| - 1];
      ScanLinesInvariant(init);
      var st := ScanLines(init);
      assert ScanLines(lines) == Step(st, line);
      match MarkerNumber(line)
      case Some(n) =>
        FlushWellFormed(st);
        assert MarkerNumbers(lines) == MarkerNumbers(init) + [n];
        assert Step(st, line) == ScanState(Flush(st.pages, st.current, st.currentNum), [line], Some(n));
      case None =>
        assert MarkerNumbers(lines) == MarkerNumbers(init);
        assert Step(st, line) == st.(current := st.current + [line]);
    }
  }

  /** Every marker line starts exactly one raw page, in order: the raw page numbers are the
      marker numbers. In particular text without a marker yields no raw page, and lines
      before the first marker belong to no page. Every raw page carries its stripped,
      non-empty text and that text's word count. */
  lemma RawPagesFollowMarkers(content: string)
    ensures PageNums(RawPagesOf(content)) == MarkerNumbers(SplitLines(content))
    ensures forall k :: 0 <= k < |RawPagesOf(content)| ==> WellFormedPage(RawPagesOf(content)[k])
  {
    var st := ScanLines(SplitLines(content));
    ScanLinesInvariant(SplitLines(content));
    FlushWellFormed(st);
  }

  /** With no marker line the document yields no raw page. */
  lemma NoMarkerNoPages(content: string)
    requires MarkerNumbers(SplitLines(content)) == []
    ensures RawPagesOf(content) == []
  {
    RawPagesFollowMarkers(content);
  }

  // ---------------------------------------------------------------------------
  // Step 2: merging small pages (index_markdown.py:89-129)
  // ---------------------------------------------------------------------------

  datatype Chunk = Chunk(pageNum: nat, pageRange: seq<nat>, text: string, wordCount: nat, isMerged: bool)

  function Texts(ps: seq<RawPage>): (r: seq<string>)
    ensures |r| == |ps| && forall k :: 0 <= k < |ps| ==> r[k] == ps[k].text
  {
    seq(|ps|, k requires 0 <= k < |ps| => ps[k].text)
  }

  function SumWords(ps: seq<RawPage>): nat
  {
    if ps == [] then 0 else SumWords(ps[..|ps| - 1]) + ps[|ps| - 1].wordCount
  }

  /** The chunk made of a run of raw pages: texts joined by a blank line, counts summed,
      the first page number as its number, merged when it has more than one page. */
  function Combine(group: seq<RawPage>): Chunk
    requires group != []
  {
    Chunk(group[0].pageNum, PageNums(group), Join("\n\n", Texts(group)), SumWords(group), |group| > 1)
  }

  /** How many further pages the inner loop absorbs once `acc` words are collected:
      it goes on while pages remain and `acc` is below `minWords`. */
  function MoreCount(rest: seq<RawPage>, acc: int, minWords: int): (n: nat)
    ensures n <= |rest|
  {
    if rest == [] || acc >= minWords then 0
    else 1 + MoreCount(rest[1..], acc + rest[0].wordCount, minWords)
  }

  /** Number of raw pages in the chunk that starts at `raw[0]`. */
  function GroupSize(raw: seq<RawPage>, minWords: int): (j: nat)
    requires raw != []
    ensures 1 <= j <= |raw|
  {
    if raw[0].wordCount >= minWords then 1 else 1 + MoreCount(raw[1..], raw[0].wordCount, minWords)
  }

  /** The runs of raw pages that become chunks, front to back. */
  function Groups(raw: seq<RawPage>, minWords: int): seq<seq<RawPage>>
    decreases |raw|
  {
    if raw == [] then []
    else
      var j := GroupSize(raw, minWords);
      [raw[..j]] + Groups(raw[j..], minWords)
  }

  function CombineAll(groups: seq<seq<RawPage>>): (r: seq<Chunk>)
    requires forall k :: 0 <= k < |groups| ==> groups[k] != []
    ensures |r| == |groups| && forall k :: 0 <= k < |groups| ==> r[k] == Combine(groups[k])
  {
    seq(|groups|, k requires 0 <= k < |groups| => Combine(groups[k]))
  }

  lemma {:induction false} GroupsNonEmpty(raw: seq<RawPage>, minWords: int)
    ensures forall k :: 0 <= k < |Groups(raw, minWords)| ==> Groups(raw, minWords)[k] != []
    decreases |raw|
  {
    if raw != [] {
      GroupsNonEmpty(raw[GroupSize(raw, minWords)..], minWords);
    }
  }

  /** The chunks `split_by_pages` returns for a list of raw pages. */
  function MergedChunks(raw: seq<RawPage>, minWords: int): seq<Chunk>
  {
    GroupsNonEmpty(raw, minWords);
    CombineAll(Groups(raw, minWords))
  }

  lemma SumWordsAppend(ps: seq<RawPage>, p: RawPage)
    ensures SumWords(ps + [p]) == SumWords(ps) + p.wordCount
  {
    assert (ps + [p])[..|ps|] == ps;
  }

  /** The chunks of a list of raw pages: the first group's chunk, then the rest's. */
  lemma MergedStep(rest: seq<RawPage>, minWords: int)
    requires rest != []
    ensures var j := GroupSize(rest, minWords);
      MergedChunks(rest, minWords) == [Combine(rest[..j])] + MergedChunks(rest[j..], minWords)
  {
    var j := GroupSize(rest, minWords);
    var g := rest[..j];
    var tail := Groups(rest[j..], minWords);
    assert Groups(rest, minWords) == [g] + tail;
    GroupsNonEmpty(rest, minWords);
    GroupsNonEmpty(rest[j..], minWords);
    var a := MergedChunks(rest, minWords);
    var b := [Combine(g)] + MergedChunks(rest[j..], minWords);
    forall k | 0 <= k < |a| ensures a[k] == b[k] {
      assert ([g] + tail)[k] == if k == 0 then g else tail[k - 1];
    }
  }

  /** A page that reaches `minWords` on its own is a chunk by itself. */
  lemma SingleChunk(rest: seq<RawPage>, minWords: int)
    requires rest != [] && rest[0].wordCount >= minWords
    ensures GroupSize(rest, minWords) == 1
    ensures Combine(rest[..1]) == Chunk(rest[0].pageNum, [rest[0].pageNum], rest[0].text, rest[0].wordCount, false)
  {
    assert rest[..1] == [rest[0]];
    assert SumWords([rest[0]]) == SumWords([]) + rest[0].wordCount;
  }

  /** The accumulators of the inner loop after the run `raw[i..j]`. */
  ghost predicate Absorbed(raw: seq<RawPage>, i: int, j: int, minWords: int,
                           text: string, words: int, range: seq<nat>)
  {
    && 0 <= i < j <= |raw|
    && text == Join("\n\n", Texts(raw[i..j]))
    && words == SumWords(raw[i..j])
    && range == PageNums(raw[i..j])
    && GroupSize(raw[i..], minWords) == (j - i) + MoreCount(raw[j..], words, minWords)
  }

  lemma AbsorbFirst(raw: seq<RawPage>, i: int, minWords: int)
    requires 0 <= i < |raw|
    ensures Absorbed(raw, i, i + 1, minWords, raw[i].text, raw[i].wordCount, [raw[i].pageNum])
  {
    assert raw[i..i + 1] == [raw[i]];
    assert raw[i..][1..] == raw[i + 1..];
    assert SumWords([raw[i]]) == SumWords([]) + raw[i].wordCount;
  }

  lemma AbsorbNext(raw: seq<RawPage>, i: int, j: int, minWords: int,
                   text: string, words: int, range: seq<nat>)
    requires Absorbed(raw, i, j, minWords, text, words, range)
    requires j < |raw| && words < minWords
    ensures Absorbed(raw, i, j + 1, minWords, text + "\n\n" + raw[j].text,
                     words + raw[j].wordCount, range + [raw[j].pageNum])
  {
    assert raw[i..j + 1] == raw[i..j] + [raw[j]];
    JoinAppend("\n\n", Texts(raw[i..j]), raw[j].text);
    assert Texts(raw[i..j + 1]) == Texts(raw[i..j]) + [raw[j].text];
    SumWordsAppend(raw[i..j], raw[j]);
    PageNumsConcat(raw[i..j], [raw[j]]);
    MoreCountStep(raw[j..], words, minWords);
    assert raw[j..][1..] == raw[j + 1..];
  }

  lemma AbsorbDone(raw: seq<RawPage>, i: int, j: int, minWords: int,
                   text: string, words: int, range: seq<nat>)
    requires Absorbed(raw, i, j, minWords, text, words, range)
    requires j == |raw| || words >= minWords
    ensures GroupSize(raw[i..], minWords) == j - i
    ensures raw[i..][..j - i] == raw[i..j] && raw[i..][j - i..] == raw[j..]
    ensures Combine(raw[i..j]) == Chunk(range[0], range, text, words, |range| > 1)
  {
  }

  lemma {:induction false} MoreCountStep(rest: seq<RawPage>, acc: int, minWords: int)
    requires rest != [] && acc < minWords
    ensures MoreCount(rest, acc, minWords) == 1 + MoreCount(rest[1..], acc + rest[0].wordCount, minWords)
  {
  }

  lemma MergeStepSingle(done: seq<Chunk>, raw: seq<RawPage>, i: nat, minWords: int)
    requires i < |raw| && raw[i].wordCount >= minWords
    ensures done + MergedChunks(raw[i..], minWords)
         == (done + [Chunk(raw[i].pageNum, [raw[i].pageNum], raw[i].text, raw[i].wordCount, false)])
            + MergedChunks(raw[i + 1..], minWords)
  {
    SingleChunk(raw[i..], minWords);
    MergeStepForward(done, raw, i, i + 1, minWords);
    assert raw[i..i + 1] == raw[i..][..1];
  }

  lemma MergeStepForward(done: seq<Chunk>, raw: seq<RawPage>, i: nat, j: nat, minWords: int)
    requires i < j <= |raw| && j - i == GroupSize(raw[i..], minWords)
    ensures done + MergedChunks(raw[i..], minWords)
         == (done + [Combine(raw[i..j])]) + MergedChunks(raw[j..], minWords)
  {
    var rest := raw[i..];
    MergedStep(rest, minWords);
    assert rest[..j - i] == raw[i..j];
    assert rest[j - i..] == raw[j..];
    var c := Combine(raw[i..j]);
    var tail := MergedChunks(raw[j..], minWords);
    assert MergedChunks(rest, minWords) == [c] + tail;
    assert done + ([c] + tail) == (done + [c]) + tail;
  }

  /** `split_by_pages`, second loop: merge raw pages below `minWords` forward. */
  method MergePages(rawPages: seq<RawPage>, minWords: int) returns (mergedPages: seq<Chunk>)
    ensures mergedPages == MergedChunks(rawPages, minWords)
  {
    mergedPages := [];
    var i := 0;
    while i < |rawPages|
      invariant 0 <= i <= |rawPages|
      invariant mergedPages + MergedChunks(rawPages[i..], minWords) == MergedChunks(rawPages, minWords)
    {
      var current := rawPages[i];
      if current.wordCount >= minWords {
        var single := Chunk(current.pageNum, [current.pageNum], current.text, current.wordCount, false);
        MergeStepSingle(mergedPages, rawPages, i, minWords);
        mergedPages := mergedPages + [single];
        i := i + 1;
      } else {
        var merged, j := MergeForward(rawPages, i, minWords);
        MergeStepForward(mergedPages, rawPages, i, j, minWords);
        mergedPages := mergedPages + [merged];
        i := j;
      }
    }
    assert MergedChunks(rawPages[i..], minWords) == [];
  }

  /** The "merge with next pages" branch: starting from the page at `i`, absorb the
      following pages while the running word count is below `minWords`. The chunk is the
      combination of exactly the pages of that group; it reaches `minWords` unless the
      pages ran out, and it absorbs no page once `minWords` is reached. */
  method MergeForward(rawPages: seq<RawPage>, i: nat, minWords: int) returns (merged: Chunk, j: nat)
    requires i < |rawPages|
    ensures i < j <= |rawPages| && j - i == GroupSize(rawPages[i..], minWords)
    ensures merged == Combine(rawPages[i..j])
    ensures j < |rawPages| ==> merged.wordCount >= minWords
    ensures j > i + 1 ==> merged.wordCount - rawPages[j - 1].wordCount < minWords
  {
    var current := rawPages[i];
    var mergedText := current.text;
    var mergedWordCount := current.wordCount;
    var pageRange := [current.pageNum];
    j := i + 1;
    AbsorbFirst(rawPages, i, minWords);
    while j < |rawPages| && mergedWordCount < minWords
      invariant Absorbed(rawPages, i, j, minWords, mergedText, mergedWordCount, pageRange)
      invariant j > i + 1 ==> mergedWordCount - rawPages[j - 1].wordCount < minWords
      decreases |rawPages| - j
    {
      var nextPage := rawPages[j];
      AbsorbNext(rawPages, i, j, minWords, mergedText, mergedWordCount, pageRange);
      mergedText := mergedText + "\n\n" + nextPage.text;
      mergedWordCount := mergedWordCount + nextPage.wordCount;
      pageRange := pageRange + [nextPage.pageNum];
      j := j + 1;
    }
    ForwardDone(rawPages, i, j, minWords, mergedText, mergedWordCount, pageRange);
    merged := Chunk(pageRange[0], pageRange, mergedText, mergedWordCount, |pageRange| > 1);
  }

  /** What the inner loop has built once it stops. */
  lemma ForwardDone(raw: seq<RawPage>, i: int, j: int, minWords: int,
                    text: string, words: int, range: seq<nat>)
    requires Absorbed(raw, i, j, minWords, text, words, range)
    requires j == |raw| || words >= minWords
    ensures j - i == GroupSize(raw[i..], minWords)
    ensures Combine(raw[i..j]) == Chunk(range[0], range, text, words, |range| > 1)
  {
    AbsorbDone(raw, i, j, minWords, text, words, range);
  }

  // ---------------------------------------------------------------------------
  // Properties of the merge
  // ---------------------------------------------------------------------------

  /** Coverage: the groups, concatenated in order, are the raw pages exactly. */
  lemma {:induction false} GroupsCover(raw: seq<RawPage>, minWords: int)
    ensures Flatten(Groups(raw, minWords)) == raw
    decreases |raw|
  {
    if raw != [] {
      var j := GroupSize(raw, minWords);
      GroupsCover(raw[j..], minWords);
      assert raw == raw[..j] + raw[j..];
    }
  }

  lemma {:induction false} SumWordsSplit(ps: seq<RawPage>, qs: seq<RawPage>)
    ensures SumWords(ps + qs) == SumWords(ps) + SumWords(qs)
    decreases |qs|
  {
    if qs != [] {
      var init := qs[..|qs| - 1];
      assert ps + qs == (ps + init) + [qs[|qs| - 1]];
      SumWordsSplit(ps, init);
      SumWordsAppend(ps + init, qs[|qs| - 1]);
    } else {
      assert ps + qs == ps;
    }
  }

  /** What the inner loop guarantees about a group: if it stopped before the end, the
      group reached `minWords`; the words before its last page were below `minWords`. */
  lemma {:induction false} MoreCountBounds(rest: seq<RawPage>, acc: int, minWords: int)
    requires acc < minWords
    ensures var n := MoreCount(rest, acc, minWords);
      && (n < |rest| ==> acc + SumWords(rest[..n]) >= minWords)
      && (n > 0 ==> acc + SumWords(rest[..n - 1]) < minWords)
  {
    var n := MoreCount(rest, acc, minWords);
    if rest != [] {
      var acc' := acc + rest[0].wordCount;
      var m := MoreCount(rest[1..], acc', minWords);
      assert n == 1 + m;
      assert rest[..n] == [rest[0]] + rest[1..][..m];
      SumWordsSplit([rest[0]], rest[1..][..m]);
      assert SumWords([rest[0]]) == SumWords([]) + rest[0].wordCount;
      if acc' < minWords {
        MoreCountBounds(rest[1..], acc', minWords);
        if m > 0 {
          assert rest[..n - 1] == [rest[0]] + rest[1..][..m - 1];
          SumWordsSplit([rest[0]], rest[1..][..m - 1]);
        }
      } else {
        assert m == 0;
        assert rest[..n - 1] == [];
      }
    }
  }

  /** The pages of one group, as the merge decides them: a page reaching `minWords` at the
      start of a chunk stands alone; otherwise pages are absorbed until the count reaches
      `minWords` (only the document's last group may fall short), and never one page more. */
  lemma GroupShape(raw: seq<RawPage>, minWords: int)
    requires raw != []
    ensures var j := GroupSize(raw, minWords);
      && (raw[0].wordCount >= minWords ==> j == 1)
      && (j < |raw| ==> SumWords(raw[..j]) >= minWords)
      && (j > 1 ==> SumWords(raw[..j - 1]) < minWords)
  {
    var j := GroupSize(raw, minWords);
    if raw[0].wordCount < minWords {
      MoreCountBounds(raw[1..], raw[0].wordCount, minWords);
      assert raw[..j] == [raw[0]] + raw[1..][..j - 1];
      SumWordsSplit([raw[0]], raw[1..][..j - 1]);
      assert SumWords([raw[0]]) == SumWords([]) + raw[0].wordCount;
      if j > 1 {
        assert raw[..j - 1] == [raw[0]] + raw[1..][..j - 2];
        SumWordsSplit([raw[0]], raw[1..][..j - 2]);
      }
    } else {
      assert raw[..1] == [raw[0]];
      assert SumWords([raw[0]]) == SumWords([]) + raw[0].wordCount;
    }
  }

  /** One group as the merge decides it (see `GroupShape`): non-empty, a page reaching
      `minWords` at its start stands alone, and its last page was needed to reach `minWords`. */
  ghost predicate GroupOK(grp: seq<RawPage>, minWords: int)
  {
    && grp != []
    && (|grp| > 1 ==> SumWords(grp[..|grp| - 1]) < minWords)
    && (grp[0].wordCount >= minWords ==> |grp| == 1)
  }

  /** Merge threshold and minimality, group by group: every group but the last reaches `minWords`. */
  lemma {:induction false} GroupsThreshold(raw: seq<RawPage>, minWords: int)
    ensures forall k :: 0 <= k < |Groups(raw, minWords)| ==> GroupOK(Groups(raw, minWords)[k], minWords)
    ensures forall k :: 0 <= k < |Groups(raw, minWords)| - 1 ==> SumWords(Groups(raw, minWords)[k]) >= minWords
    decreases |raw|
  {
    if raw != [] {
      var j := GroupSize(raw, minWords);
      GroupShape(raw, minWords);
      GroupsThreshold(raw[j..], minWords);
      var tail := Groups(raw[j..], minWords);
      assert raw[..j][..j - 1] == raw[..j - 1];
      assert tail == [] <==> j == |raw|;
      var g := Groups(raw, minWords);
      assert g == [raw[..j]] + tail;
      forall k | 0 <= k < |g| ensures GroupOK(g[k], minWords) && (k < |g| - 1 ==> SumWords(g[k]) >= minWords) {
        if k > 0 {
          assert g[k] == tail[k - 1];
        }
      }
    }
  }

  lemma {:induction false} PageNumsFlatten(groups: seq<seq<RawPage>>)
    requires forall k :: 0 <= k < |groups| ==> groups[k] != []
    ensures Flatten(RangesOf(CombineAll(groups))) == PageNums(Flatten(groups))
  {
    if groups != [] {
      var rs := RangesOf(CombineAll(groups));
      var tail := RangesOf(CombineAll(groups[1..]));
      PageNumsFlatten(groups[1..]);
      assert rs[0] == PageNums(groups[0]);
      assert rs[1..] == tail by {
        forall k | 0 <= k < |tail| ensures rs[1..][k] == tail[k] {
          assert groups[1..][k] == groups[k + 1];
        }
      }
      PageNumsConcat(groups[0], Flatten(groups[1..]));
    }
  }

  function RangesOf(chunks: seq<Chunk>): (r: seq<seq<nat>>)
    ensures |r| == |chunks| && forall k :: 0 <= k < |chunks| ==> r[k] == chunks[k].pageRange
  {
    seq(|chunks|, k requires 0 <= k < |chunks| => chunks[k].pageRange)
  }

  lemma {:induction false} CombinedWords(group: seq<RawPage>)
    requires group != []
    requires forall p :: p in group ==> WellFormedPage(p)
    ensures Combine(group).wordCount == |Words(Combine(group).text)|
    decreases |group|
  {
    if |group| > 1 {
      var init := group[..|group| - 1];
      assert group == init + [group[|group| - 1]];
      assert forall p :: p in init ==> p in group;
      CombinedWords(init);
      CombineAppendWords(init, group[|group| - 1]);
    } else {
      assert group[0] in group;
      assert Texts(group) == [group[0].text];
      assert SumWords(group) == SumWords(group[..0]) + group[0].wordCount;
    }
  }

  /** One step of `CombinedWords`: appending a well-formed page keeps the count exact. */
  lemma CombineAppendWords(init: seq<RawPage>, last: RawPage)
    requires init != [] && WellFormedPage(last)
    requires Combine(init).wordCount == |Words(Combine(init).text)|
    ensures Combine(init + [last]).wordCount == |Words(Combine(init + [last]).text)|
  {
    var group := init + [last];
    var initText := Join("\n\n", Texts(init));
    assert Texts(group) == Texts(init) + [last.text];
    JoinAppend("\n\n", Texts(init), last.text);
    WordsAcrossSeparator(initText, "\n\n", last.text);
    SumWordsAppend(init, last);
  }

  /** The properties of `split_by_pages` on a list of raw pages:
      - coverage: the chunks' page ranges, concatenated in order, are the raw page numbers;
      - every chunk is numbered by its first page, is merged exactly when it spans more
        than one page, and counts the words of its pages;
      - every chunk except the last reaches `minWords`. */
  lemma MergedChunksProperties(raw: seq<RawPage>, minWords: int)
    requires forall p :: p in raw ==> WellFormedPage(p)
    ensures var cs := MergedChunks(raw, minWords);
      && Flatten(RangesOf(cs)) == PageNums(raw)
      && (forall k :: 0 <= k < |cs| ==>
            && cs[k].pageRange != []
            && cs[k].pageNum == cs[k].pageRange[0]
            && (cs[k].isMerged <==> |cs[k].pageRange| > 1)
            && cs[k].wordCount == |Words(cs[k].text)|)
      && (forall k :: 0 <= k < |cs| - 1 ==> cs[k].wordCount >= minWords)
  {
    var g := Groups(raw, minWords);
    GroupsNonEmpty(raw, minWords);
    GroupsCover(raw, minWords);
    GroupsThreshold(raw, minWords);
    PageNumsFlatten(g);
    forall k | 0 <= k < |g|
      ensures Combine(g[k]).wordCount == |Words(Combine(g[k]).text)|
    {
      GroupMembers(raw, minWords, k);
      CombinedWords(g[k]);
    }
  }

  /** Every page of every group is one of the raw pages. */
  lemma {:induction false} GroupMembers(raw: seq<RawPage>, minWords: int, k: nat)
    requires k < |Groups(raw, minWords)|
    ensures forall p :: p in Groups(raw, minWords)[k] ==> p in raw
    decreases |raw|
  {
    var j := GroupSize(raw, minWords);
    if k > 0 {
      GroupMembers(raw[j..], minWords, k - 1);
    }
  }

  // ---------------------------------------------------------------------------
  // split_by_pages as a whole
  // ---------------------------------------------------------------------------

  /** The chunks of a document. */
  function ChunksOf(content: string, minWords: int): seq<Chunk>
  {
    MergedChunks(RawPagesOf(content), minWords)
  }

  /** `split_by_pages(content, min_words)`. */
  method SplitByPages(content: string, minWords: int) returns (chunks: seq<Chunk>)
    ensures chunks == ChunksOf(content, minWords)
  {
    var rawPages := ExtractRawPages(content);
    chunks := MergePages(rawPages, minWords);
  }

  /** Coverage from the text to the chunks: the chunks' page ranges, concatenated in order,
      are the numbers of the marker lines, so no page is skipped or repeated and a text
      without markers yields no chunk. Every chunk's word count is the number of
      whitespace-separated words of its text, and every chunk but the last reaches `minWords`. */
  lemma ChunksCoverMarkers(content: string, minWords: int)
    ensures var cs := ChunksOf(content, minWords);
      && Flatten(RangesOf(cs)) == MarkerNumbers(SplitLines(content))
      && (MarkerNumbers(SplitLines(content)) == [] <==> cs == [])
      && (forall k :: 0 <= k < |cs| ==>
            && cs[k].pageRange != []
            && cs[k].pageNum == cs[k].pageRange[0]
            && (cs[k].isMerged <==> |cs[k].pageRange| > 1)
            && cs[k].wordCount == |Words(cs[k].text)|)
      && (forall k :: 0 <= k < |cs| - 1 ==> cs[k].wordCount >= minWords)
  {
    var raw := RawPagesOf(content);
    RawPagesFollowMarkers(content);
    forall p | p in raw ensures WellFormedPage(p) {
      var idx :| 0 <= idx < |raw| && raw[idx] == p;
    }
    MergedChunksProperties(raw, minWords);
    var cs := ChunksOf(content, minWords);
    GroupsNonEmpty(raw, minWords);
    assert |cs| == |Groups(raw, minWords)|;
    assert raw == [] ==> cs == [];
    assert cs == [] ==> raw == [] by {
      GroupsCover(raw, minWords);
    }
  }
}
