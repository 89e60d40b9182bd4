/** Sliding-window chunking of extracted page text (app/ingestion/chunker.py).

    The pages' whitespace tokens are flattened into one stream, each token tagged with
    its page number. Windows of `chunkSize` tokens advance by `step = chunkSize -
    overlap`; the last window ends at the end of the stream. Window `i` covers the token
    indices `WindowStart(i) .. WindowEnd(i)`. */
module Chunker {
  import opened Common
  import opened Text

  /** settings.chunk_size_tokens and settings.chunk_overlap_tokens */
  const DefaultChunkSize: int := 300
  const DefaultOverlap: int := 60

  datatype PageText = PageText(pageNumber: int, text: string)

  /** The file a chunk comes from: file_id, filename and drive_url. */
  datatype Provenance = Provenance(fileId: string, filename: string, driveUrl: string)

  datatype Chunk = Chunk(
    chunkId: string,
    fileId: string,
    filename: string,
    driveUrl: string,
    pageStart: int,
    pageEnd: int,
    ingestedAt: string,
    text: string)

  /** A token of the flattened stream and the page it came from. */
  datatype Token = Token(word: string, page: int)

  /** `_tokenize`: whitespace splitting. */
  function Tokenize(text: string): seq<string> {
    Split(text)
  }

  function PageTokens(p: PageText): seq<Token> {
    var ws := Tokenize(p.text);
    seq(|ws|, i requires 0 <= i < |ws| => Token(ws[i], p.pageNumber))
  }

  /** The token stream of `pages`, in page order. */
  function TokenStream(pages: seq<PageText>): seq<Token> {
    if pages == [] then [] else TokenStream(pages[..|pages| - 1]) + PageTokens(pages[|pages| - 1])
  }

  /** `x or default` for an optional int: None and 0 both select the default. */
  function OrDefault(requested: Option<int>, default: int): int {
    if requested.Some? && requested.value != 0 then requested.value else default
  }

  /** The condition the chunker asserts on its resolved sizes. */
  predicate ValidSizes(size: int, overlap: int) {
    size > 0 && overlap >= 0 && overlap < size
  }

  // ---------------------------------------------------------------- windows

  /** Number of windows over a stream of `n` tokens. */
  function WindowCount(n: nat, size: nat, step: nat): nat
    requires 0 < step <= size
    decreases n
  {
    if n == 0 then 0 else if n <= size then 1 else 1 + WindowCount(n - step, size, step)
  }

  function WindowStart(i: nat, step: nat): nat {
    if i == 0 then 0 else WindowStart(i - 1, step) + step
  }

  function WindowEnd(i: nat, n: nat, size: nat, step: nat): nat {
    Min(WindowStart(i, step) + size, n)
  }

  /** Window `i` starts inside the stream, and it stops short of the end of the stream
      exactly when another window follows it. */
  lemma {:induction false} WindowBounds(n: nat, size: nat, step: nat, i: nat)
    requires 0 < step <= size && i < WindowCount(n, size, step)
    ensures WindowStart(i, step) < n
    ensures WindowStart(i, step) + size < n <==> i + 1 < WindowCount(n, size, step)
  {
    if n <= size {
      assert WindowCount(n, size, step) == 1;
    } else if i == 0 {
      assert WindowCount(n - step, size, step) >= 1;
    } else {
      WindowBounds(n - step, size, step, i - 1);
    }
  }

  /** The tokens of window `i`. */
  function Window(stream: seq<Token>, size: nat, step: nat, i: nat): (w: seq<Token>)
    requires 0 < step <= size && i < WindowCount(|stream|, size, step)
    ensures 0 < |w| <= size
  {
    WindowBounds(|stream|, size, step, i);
    stream[WindowStart(i, step)..WindowEnd(i, |stream|, size, step)]
  }

  function Words(w: seq<Token>): seq<string> {
    seq(|w|, i requires 0 <= i < |w| => w[i].word)
  }

  function Pages(w: seq<Token>): seq<int> {
    seq(|w|, i requires 0 <= i < |w| => w[i].page)
  }

  /** `min(xs)` */
  function MinOf(xs: seq<int>): (m: int)
    requires xs != []
  {
    if |xs| == 1 then xs[0]
    else
      var r := MinOf(xs[1..]);
      if xs[0] <= r then xs[0] else r
  }

  /** `MinOf` is an element of its argument and no element is smaller. */
  lemma {:induction false} MinOfIsMinimum(xs: seq<int>)
    requires xs != []
    ensures MinOf(xs) in xs && forall x :: x in xs ==> MinOf(xs) <= x
  {
    if |xs| > 1 {
      MinOfIsMinimum(xs[1..]);
      assert forall x :: x in xs ==> x == xs[0] || x in xs[1..];
    }
  }

  function MaxOf(xs: seq<int>): (m: int)
    requires xs != []
  {
    if |xs| == 1 then xs[0]
    else
      var r := MaxOf(xs[1..]);
      if xs[0] >= r then xs[0] else r
  }

  /** `MaxOf` is an element of its argument and no element is larger. */
  lemma {:induction false} MaxOfIsMaximum(xs: seq<int>)
    requires xs != []
    ensures MaxOf(xs) in xs && forall x :: x in xs ==> x <= MaxOf(xs)
  {
    if |xs| > 1 {
      MaxOfIsMaximum(xs[1..]);
      assert forall x :: x in xs ==> x == xs[0] || x in xs[1..];
    }
  }


  /** The chunk built from one non-empty window. */
  function ChunkOf(window: seq<Token>, prov: Provenance, id: string, now: string): Chunk
    requires window != []
  {
    Chunk(id, prov.fileId, prov.filename, prov.driveUrl,
          MinOf(Pages(window)), MaxOf(Pages(window)), now, Strip(Join(" ", Words(window))))
  }

  /** The chunk of window `i`, carrying id `ids(i)` and timestamp `nows(i)`: each chunk
      reads the clock when it is built. */
  function ChunkAt(stream: seq<Token>, size: int, overlap: int, prov: Provenance,
                   ids: nat -> string, nows: nat -> string, i: nat): Chunk
    requires ValidSizes(size, overlap) && i < WindowCount(|stream|, size, size - overlap)
  {
    ChunkOf(Window(stream, size, size - overlap, i), prov, ids(i), nows(i))
  }

  /** The chunks of a token stream: one per window, in window order. */
  function ChunksOf(stream: seq<Token>, size: int, overlap: int, prov: Provenance,
                    ids: nat -> string, nows: nat -> string): (cs: seq<Chunk>)
    requires ValidSizes(size, overlap)
    ensures |cs| == WindowCount(|stream|, size, size - overlap)
    ensures forall i :: 0 <= i < |cs| ==> cs[i] == ChunkAt(stream, size, overlap, prov, ids, nows, i)
  {
    var k := WindowCount(|stream|, size, size - overlap);
    seq(k, i requires 0 <= i < k => ChunkAt(stream, size, overlap, prov, ids, nows, i))
  }

  // ---------------------------------------------------------------- chunk_pages

  /** The first loop of `chunk_pages`: each page's tokens, tagged with its page number,
      are appended to the stream. */
  method FlattenPages(pages: seq<PageText>) returns (stream: seq<Token>)
    ensures stream == TokenStream(pages)
  {
    stream := [];
    for k := 0 to |pages|
      invariant stream == TokenStream(pages[..k])
    {
      assert pages[..k + 1][..k] == pages[..k];
      stream := stream + PageTokens(pages[k]);
    }
    assert pages[..|pages|] == pages;
  }

  /** The second loop of `chunk_pages`: the window advances by `size - overlap` tokens
      until a window reaches the end of the stream. */
  method SlideWindows(stream: seq<Token>, size: int, overlap: int, prov: Provenance,
                      ids: nat -> string, nows: nat -> string)
    returns (chunks: seq<Chunk>)
    requires ValidSizes(size, overlap)
    requires forall t :: t in stream ==> IsToken(t.word)
    ensures chunks == ChunksOf(stream, size, overlap, prov, ids, nows)
  {
    chunks := [];
    var step := size - overlap;
    var n := |stream|;
    if stream == [] {
      return;
    }
    var start := 0;
    while start < n
      invariant |chunks| < WindowCount(n, size, step)
      invariant start == WindowStart(|chunks|, step) < n
      invariant chunks == ChunksOf(stream, size, overlap, prov, ids, nows)[..|chunks|]
      decreases n - start
    {
      ghost var c := |chunks|;
      WindowChunk(stream, size, overlap, prov, ids, nows, c);
      var end := Min(start + size, n);
      var window := stream[start..end];
      assert end == WindowEnd(c, n, size, step) && window == Window(stream, size, step, c);
      var text := Strip(Join(" ", Words(window)));
      var pageStart := MinOf(Pages(window));
      var pageEnd := MaxOf(Pages(window));
      if text != "" {
        chunks := chunks + [Chunk(ids(|chunks|), prov.fileId, prov.filename, prov.driveUrl,
                                  pageStart, pageEnd, nows(|chunks|), text)];
      }
      if end == n {
        ghost var cs := ChunksOf(stream, size, overlap, prov, ids, nows);
        assert |chunks| == |cs| && chunks == cs[..|cs|] == cs;
        break;
      }
      start := start + step;
      WindowBounds(n, size, step, c + 1);
    }
  }

  /** One turn of the window loop: window `c` produces `ChunkAt(c)`, whose text is never
      empty, and it is the last window exactly when it reaches the end of the stream. */
  lemma WindowChunk(stream: seq<Token>, size: int, overlap: int, prov: Provenance,
                    ids: nat -> string, nows: nat -> string, c: nat)
    requires ValidSizes(size, overlap) && c < WindowCount(|stream|, size, size - overlap)
    requires forall t :: t in stream ==> IsToken(t.word)
    ensures var step := size - overlap;
            var cs := ChunksOf(stream, size, overlap, prov, ids, nows);
            var start := WindowStart(c, step);
            var end := WindowEnd(c, |stream|, size, step);
            var window := Window(stream, size, step, c);
            && start < end <= |stream|
            && window == stream[start..end]
            && Strip(Join(" ", Words(window))) != ""
            && cs[..c + 1] == cs[..c] + [Chunk(ids(c), prov.fileId, prov.filename, prov.driveUrl,
                                               MinOf(Pages(window)), MaxOf(Pages(window)), nows(c),
                                               Strip(Join(" ", Words(window))))]
            && (end == |stream| <==> c + 1 == |cs|)
            && WindowStart(c + 1, step) == start + step
  {
    var step := size - overlap;
    var cs := ChunksOf(stream, size, overlap, prov, ids, nows);
    WindowBounds(|stream|, size, step, c);
    var window := Window(stream, size, step, c);
    ChunkTextNonEmpty(window);
    assert cs[c] == ChunkAt(stream, size, overlap, prov, ids, nows, c);
    assert cs[..c + 1] == cs[..c] + [cs[c]];
  }

  /** `chunk_pages`: `chunkSize` and `overlap` of None or 0 take the defaults 300 and 60;
      sizes that fail the assertion raise AssertionError; otherwise the result is one
      chunk per window of the pages' token stream. */
  method ChunkPages(pages: seq<PageText>, chunkSize: Option<int>, overlap: Option<int>,
                    prov: Provenance, ids: nat -> string, nows: nat -> string)
    returns (r: Outcome<seq<Chunk>>)
    ensures var size := OrDefault(chunkSize, DefaultChunkSize);
            var ov := OrDefault(overlap, DefaultOverlap);
            if ValidSizes(size, ov) then r == Ok(ChunksOf(TokenStream(pages), size, ov, prov, ids, nows))
            else r == Raised("AssertionError")
  {
    var size := OrDefault(chunkSize, DefaultChunkSize);
    var ov := OrDefault(overlap, DefaultOverlap);
    if !(size > 0 && ov >= 0 && ov < size) {
      return Raised("AssertionError");
    }
    var stream := FlattenPages(pages);
    StreamFromPages(pages);
    var chunks := SlideWindows(stream, size, ov, prov, ids, nows);
    return Ok(chunks);
  }

  // ---------------------------------------------------------------- properties

  /** A window's text is its tokens joined by single spaces, never empty: the `if text`
      guard never drops a window. */
  lemma ChunkTextNonEmpty(window: seq<Token>)
    requires window != [] && forall t :: t in window ==> IsToken(t.word)
    ensures Strip(Join(" ", Words(window))) == Join(" ", Words(window)) != ""
  {
    var ws := Words(window);
    assert forall k :: 0 <= k < |ws| ==> window[k] in window && ws[k] == window[k].word;
    JoinOfTokens(ws);
    StripUnchanged(Join(" ", ws));
  }

  /** Every token of the stream is a non-empty word and carries the number of one of
      the input pages. */
  lemma {:induction false} StreamFromPages(pages: seq<PageText>)
    ensures forall t :: t in TokenStream(pages) ==>
              IsToken(t.word) && exists p :: p in pages && p.pageNumber == t.page
  {
    if pages != [] {
      var init := pages[..|pages| - 1];
      var last := pages[|pages| - 1];
      StreamFromPages(init);
      var s := TokenStream(pages);
      assert s == TokenStream(init) + PageTokens(last);
      forall t | t in s
        ensures IsToken(t.word) && exists p :: p in pages && p.pageNumber == t.page
      {
        if t in TokenStream(init) {
          var p :| p in init && p.pageNumber == t.page;
          assert p in pages;
        } else {
          assert t in PageTokens(last);
          var j :| 0 <= j < |PageTokens(last)| && PageTokens(last)[j] == t;
          assert Tokenize(last.text)[j] in Tokenize(last.text);
        }
      }
    }
  }

  /** Every window but the last is full, and consecutive windows share exactly
      `size - step` tokens: window `i + 1` starts `step` tokens after window `i` and
      its first `size - step` tokens are the last `size - step` tokens of window `i`. */
  lemma WindowsOverlap(stream: seq<Token>, size: nat, step: nat, i: nat)
    requires 0 < step <= size && i + 1 < WindowCount(|stream|, size, step)
    ensures WindowEnd(i, |stream|, size, step) == WindowStart(i, step) + size
    ensures WindowEnd(i, |stream|, size, step) - WindowStart(i + 1, step) == size - step
    ensures |Window(stream, size, step, i)| == size
    ensures Window(stream, size, step, i)[step..] == Window(stream, size, step, i + 1)[..size - step]
  {
    WindowBounds(|stream|, size, step, i);
    WindowBounds(|stream|, size, step, i + 1);
    var s := WindowStart(i, step);
    assert WindowStart(i + 1, step) == s + step;
    assert s + size < |stream|;
    assert WindowEnd(i, |stream|, size, step) == s + size;
    var w := Window(stream, size, step, i);
    assert w == stream[s..s + size];
    assert w[step..] == stream[s + step..s + size];
    var e := WindowEnd(i + 1, |stream|, size, step);
    assert Window(stream, size, step, i + 1) == stream[s + step..e];
    assert e >= s + size;
  }

  /** The last window ends at the end of the stream. */
  lemma LastWindowReachesEnd(n: nat, size: nat, step: nat)
    requires 0 < step <= size && n > 0
    ensures WindowCount(n, size, step) > 0
    ensures WindowEnd(WindowCount(n, size, step) - 1, n, size, step) == n
  {
    WindowBounds(n, size, step, WindowCount(n, size, step) - 1);
  }

  /** Every token of the stream lies in some window. */
  lemma {:induction false} WindowsCover(n: nat, size: nat, step: nat, t: nat)
    requires 0 < step <= size && t < n
    ensures exists i: nat :: i < WindowCount(n, size, step) &&
                        WindowStart(i, step) <= t < WindowEnd(i, n, size, step)
  {
    if n <= size || t < step {
      assert WindowStart(0, step) <= t < WindowEnd(0, n, size, step);
      assert WindowCount(n, size, step) >= 1;
    } else {
      WindowsCover(n - step, size, step, t - step);
      var i: nat :| i < WindowCount(n - step, size, step) &&
               WindowStart(i, step) <= t - step < WindowEnd(i, n - step, size, step);
      assert WindowStart(i + 1, step) == WindowStart(i, step) + step;
      assert WindowStart(i + 1, step) <= t < WindowEnd(i + 1, n, size, step);
    }
  }

  /** Window `i` starts `i * step` tokens into the stream. */
  lemma {:induction false} WindowStartIsMultiple(i: nat, step: nat)
    ensures WindowStart(i, step) == i * step
  {
    if i > 0 {
      WindowStartIsMultiple(i - 1, step);
    }
  }

  /** The number of windows: none for an empty stream, one for a stream that fits in a
      window, and otherwise the least `c` with `size + (c - 1) * step >= n`. */
  lemma WindowCountBracket(n: nat, size: nat, step: nat)
    requires 0 < step <= size
    ensures n == 0 <==> WindowCount(n, size, step) == 0
    ensures 0 < n <= size ==> WindowCount(n, size, step) == 1
    ensures n > size ==> var c := WindowCount(n, size, step);
                         c >= 2 && size + (c - 2) * step < n <= size + (c - 1) * step
  {
    var c := WindowCount(n, size, step);
    if n > size {
      assert WindowCount(n - step, size, step) >= 1;
      WindowBounds(n, size, step, c - 2);
      WindowStartIsMultiple(c - 2, step);
      LastWindowReachesEnd(n, size, step);
      WindowStartIsMultiple(c - 1, step);
    }
  }

  /** The page range of a window's chunk spans the pages of all its tokens, and both
      ends are the page of one of its tokens. */
  lemma ChunkPageRange(window: seq<Token>, prov: Provenance, id: string, now: string)
    requires window != []
    ensures var c := ChunkOf(window, prov, id, now);
            && c.pageStart <= c.pageEnd
            && (forall t :: t in window ==> c.pageStart <= t.page <= c.pageEnd)
            && (exists t :: t in window && t.page == c.pageStart)
            && (exists t :: t in window && t.page == c.pageEnd)
  {
    var ps := Pages(window);
    MinOfIsMinimum(ps);
    MaxOfIsMaximum(ps);
    forall t | t in window
      ensures t.page in ps
    {
      var j :| 0 <= j < |window| && window[j] == t;
      assert ps[j] == t.page;
    }
    var j :| 0 <= j < |ps| && ps[j] == MinOf(ps);
    assert window[j] in window;
    var k :| 0 <= k < |ps| && ps[k] == MaxOf(ps);
    assert window[k] in window;
  }

  /** Every chunk of `chunk_pages` carries its window's id, provenance and timestamp, the
      window's words joined by single spaces (never empty), and a page range that spans
      the pages of the window's tokens and begins and ends at page numbers of the input. */
  lemma ChunkProperties(pages: seq<PageText>, size: int, overlap: int, prov: Provenance,
                        ids: nat -> string, nows: nat -> string, i: nat)
    requires ValidSizes(size, overlap)
    requires i < |ChunksOf(TokenStream(pages), size, overlap, prov, ids, nows)|
    ensures var c := ChunksOf(TokenStream(pages), size, overlap, prov, ids, nows)[i];
            var window := Window(TokenStream(pages), size, size - overlap, i);
            && c.chunkId == ids(i) && c.ingestedAt == nows(i)
            && c.fileId == prov.fileId && c.filename == prov.filename && c.driveUrl == prov.driveUrl
            && c.text == Join(" ", Words(window)) != ""
            && c.pageStart <= c.pageEnd
            && (forall t :: t in window ==> c.pageStart <= t.page <= c.pageEnd)
            && (exists p :: p in pages && p.pageNumber == c.pageStart)
            && (exists p :: p in pages && p.pageNumber == c.pageEnd)
  {
    var stream := TokenStream(pages);
    var window := Window(stream, size, size - overlap, i);
    var c := ChunkOf(window, prov, ids(i), nows(i));
    assert ChunksOf(stream, size, overlap, prov, ids, nows)[i] == c;
    StreamFromPages(pages);
    WindowBounds(|stream|, size, size - overlap, i);
    assert forall t :: t in window ==> t in stream;
    ChunkTextNonEmpty(window);
    ChunkPageRange(window, prov, ids(i), nows(i));
    var lo :| lo in window && lo.page == c.pageStart;
    var hi :| hi in window && hi.page == c.pageEnd;
    assert lo in stream && hi in stream;
  }

  /** A document of 715 words split with the default sizes gives three chunks, covering
      words 0..300, 240..540 and 480..715. */
  lemma DefaultSizesExample()
    ensures WindowCount(715, DefaultChunkSize, DefaultChunkSize - DefaultOverlap) == 3
    ensures WindowStart(2, 240) == 480 && WindowEnd(2, 715, 300, 240) == 715
  {
  }
}
