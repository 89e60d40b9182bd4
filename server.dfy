/** The `/query` endpoint of the HTTP API (app/api/server.py): the hits of the selected
    retrieval mode are numbered into a prompt, the language model answers, and every hit
    is returned as a ranked citation.

    The model call `call_ollama` is the parameter `call`; it returns the `response` text
    of the model or raises (an HTTP 502 for a non-200 status, or the request's own
    exception). */
module Server {
  import opened Common
  import opened Text
  import opened Searcher

  /** The number of hits whose blocks enter the prompt. */
  const ContextLimit: nat := 10

  /** `elser_only if mode == "elser" else hybrid_rrf`: the outcome of the selected
      retrieval. */
  function Retrieved(mode: string, q: string, k: int, search: SearchBody -> Outcome<Response>,
                     embed: string -> Outcome<seq<real>>): (r: Outcome<seq<Hit>>)
    ensures mode == "elser" ==> r == Searched(search(ElserOnlyBody(q, k)))
    ensures mode != "elser" && embed(q).Raised? ==> r == Raised(embed(q).exception)
    ensures mode != "elser" && embed(q).Ok? ==> r == Searched(search(HybridRrfBody(q, embed(q).value, k)))
  {
    if mode == "elser" then ElserOnlyOf(q, k, search) else HybridRrfOf(q, k, search, embed)
  }

  /** The retrieval step of `query`. */
  method Retrieve(mode: string, q: string, k: int, search: SearchBody -> Outcome<Response>,
                  embed: string -> Outcome<seq<real>>)
    returns (hits: Outcome<seq<Hit>>)
    ensures hits == Retrieved(mode, q, k, search, embed)
  {
    if mode == "elser" {
      hits := ElserOnly(q, k, search);
    } else {
      hits := HybridRrf(q, k, search, embed);
    }
  }

  // ---------------------------------------------------------------- make_prompt

  /** `h.get("page_range") or [None, None]` */
  function PagePair(h: Hit): (Option<int>, Option<int>) {
    if h.pageRange.Some? then (h.pageRange.value.first, h.pageRange.value.second) else (None, None)
  }

  /** The header of block `i` after its number: ` filename p.p0-p1 drive_url`, a missing
      filename or link reading "". */
  function MetaTail(h: Hit): string {
    var (p0, p1) := PagePair(h);
    " " + ShowStr(h.filename.GetOr("")) + " p." + ShowInt(p0) + "-" + ShowInt(p1) + " " +
    ShowStr(h.driveUrl.GetOr(""))
  }

  /** The header of block `i`: `[i] filename p.p0-p1 drive_url`, stripped. */
  function Meta(h: Hit, i: nat): string {
    Strip("[" + NatToString(i) + "]" + MetaTail(h))
  }

  /** `(h.get("snippet") or h.get("text") or "").strip()` */
  function PassageText(h: Hit): string {
    Strip(StrOr(h.snippet.Get(), StrOr(h.text.Get(), "")))
  }

  /** Block `i` of the context. */
  function Part(h: Hit, i: nat): string {
    Meta(h, i) + "\n" + PassageText(h)
  }

  /** The blocks of all hits, numbered from 1. */
  function Parts(hits: seq<Hit>): (ps: seq<string>)
    ensures |ps| == |hits|
  {
    seq(|hits|, i requires 0 <= i < |hits| => Part(hits[i], i + 1))
  }

  /** The prompt template of `make_prompt` up to the question. */
  const ServerPromptIntro: string :=
    "You are a helpful assistant. Answer the QUESTION using only the CONTEXT.\n" +
    "If the answer cannot be found, say \"I don't know.\" Be concise.\n\nQUESTION:\n"

  function ServerPromptHead(question: string): string {
    ServerPromptIntro + question + "\n\nCONTEXT:\n"
  }

  const ServerPromptTail: string := "\n\nAnswer:"

  /** The prompt `make_prompt` gives: the first ten blocks joined by blank lines. */
  function MakePromptOf(question: string, hits: seq<Hit>): string {
    ServerPromptHead(question) + Join("\n\n", PyPrefix(Parts(hits), ContextLimit)) + ServerPromptTail
  }

  /** `make_prompt` */
  method MakePrompt(question: string, hits: seq<Hit>) returns (prompt: string)
    ensures prompt == MakePromptOf(question, hits)
  {
    var parts: seq<string> := [];
    for k := 0 to |hits|
      invariant parts == Parts(hits[..k])
    {
      var h := hits[k];
      var meta := Strip("[" + NatToString(k + 1) + "]" + MetaTail(h));
      var txt := Strip(StrOr(h.snippet.Get(), StrOr(h.text.Get(), "")));
      assert meta + "\n" + txt == Part(h, k + 1);
      PartsSnoc(hits, k);
      parts := parts + [meta + "\n" + txt];
    }
    assert hits[..|hits|] == hits;
    var context := Join("\n\n", PyPrefix(parts, ContextLimit));
    prompt := ServerPromptHead(question) + context + ServerPromptTail;
  }

  /** One more hit adds one more block. */
  lemma PartsSnoc(hits: seq<Hit>, k: nat)
    requires k < |hits|
    ensures Parts(hits[..k + 1]) == Parts(hits[..k]) + [Part(hits[k], k + 1)]
  {
    assert forall i :: 0 <= i < k ==> hits[..k + 1][i] == hits[..k][i];
  }

  /** The blocks of a prefix of the hits are a prefix of the blocks. */
  lemma PartsPrefix(hits: seq<Hit>, n: nat)
    requires n <= |hits|
    ensures Parts(hits[..n]) == Parts(hits)[..n]
  {
    assert forall i :: 0 <= i < n ==> hits[..n][i] == hits[i];
  }

  /** Hits after the tenth never reach the prompt. */
  lemma OnlyFirstTenHits(question: string, hits: seq<Hit>)
    requires |hits| > ContextLimit
    ensures MakePromptOf(question, hits) == MakePromptOf(question, hits[..ContextLimit])
  {
    var ps := Parts(hits);
    var qs := Parts(hits[..ContextLimit]);
    PartsPrefix(hits, ContextLimit);
    assert PyPrefix(ps, ContextLimit) == ps[..ContextLimit];
    assert PyPrefix(qs, ContextLimit) == qs;
  }

  /** Block `i` (counted from 0) begins with its 1-based number in brackets. */
  lemma PartNumbered(hits: seq<Hit>, i: nat)
    requires i < |hits|
    ensures var tag := "[" + NatToString(i + 1) + "]";
            |Parts(hits)[i]| >= |tag| && Parts(hits)[i][..|tag|] == tag
  {
    var h := hits[i];
    var tag := "[" + NatToString(i + 1) + "]";
    assert tag[0] == '[' && tag[|tag| - 1] == ']';
    StripKeepsPrefix(tag, MetaTail(h));
    var part := Parts(hits)[i];
    assert part == Meta(h, i + 1) + "\n" + PassageText(h);
    assert part[..|tag|] == Meta(h, i + 1)[..|tag|];
  }

  // ---------------------------------------------------------------- query

  datatype Citation = Citation(rank: nat, score: Option<real>, filename: Option<string>,
                               driveUrl: Option<string>, chunkId: Option<string>,
                               pageRange: Option<PageRange>, snippet: string)

  datatype QueryOut = QueryOut(answer: string, citations: seq<Citation>)

  /** The citation of hit `h` at 1-based position `rank`: its fields as they are, and the
      first 300 characters of its snippet ("" when missing, None or empty). */
  function CitationOf(h: Hit, rank: nat): (c: Citation)
    ensures c.rank == rank && c.chunkId == h.chunkId.Get() && c.filename == h.filename.Get()
    ensures c.driveUrl == h.driveUrl.Get() && c.pageRange == h.pageRange && c.score == h.score.Get()
    ensures |c.snippet| <= 300
    ensures |c.snippet| == Min(300, |StrOr(h.snippet.Get(), "")|)
    ensures c.snippet == StrOr(h.snippet.Get(), "")[..|c.snippet|]
  {
    Citation(rank, h.score.Get(), h.filename.Get(), h.driveUrl.Get(), h.chunkId.Get(), h.pageRange,
             PyPrefix(StrOr(h.snippet.Get(), ""), 300))
  }

  /** The citation loop of `query`: one citation per hit, in hit order, ranked from 1. */
  method BuildCitations(hits: seq<Hit>) returns (citations: seq<Citation>)
    ensures |citations| == |hits|
    ensures forall i :: 0 <= i < |hits| ==> citations[i] == CitationOf(hits[i], i + 1)
  {
    citations := [];
    for i := 0 to |hits|
      invariant |citations| == i
      invariant forall j :: 0 <= j < i ==> citations[j] == CitationOf(hits[j], j + 1)
    {
      var h := hits[i];
      citations := citations + [Citation(i + 1, h.score.Get(), h.filename.Get(), h.driveUrl.Get(),
                                         h.chunkId.Get(), h.pageRange,
                                         PyPrefix(StrOr(h.snippet.Get(), ""), 300))];
    }
  }

  /** `query`: a failed retrieval or model call raises; otherwise the stripped answer and
      the citations of all hits. The out-parameter `prompt` is the prompt sent to the
      model, None when retrieval raised first. */
  method Query(q: string, k: int, mode: string, search: SearchBody -> Outcome<Response>,
               embed: string -> Outcome<seq<real>>, call: string -> Outcome<string>)
    returns (r: Outcome<QueryOut>, prompt: Option<string>)
    ensures var hits := Retrieved(mode, q, k, search, embed);
            && (hits.Raised? ==> r == Raised(hits.exception) && prompt == None)
            && (hits.Ok? ==> prompt == Some(MakePromptOf(q, hits.value)))
    ensures prompt.Some? && call(prompt.value).Raised? ==> r == Raised(call(prompt.value).exception)
    ensures prompt.Some? && call(prompt.value).Ok? ==>
              r.Ok? && r.value.answer == Strip(call(prompt.value).value)
    ensures r.Ok? ==> var hits := Retrieved(mode, q, k, search, embed).value;
                      |r.value.citations| == |hits| &&
                      forall i :: 0 <= i < |hits| ==> r.value.citations[i] == CitationOf(hits[i], i + 1)
  {
    var hits := Retrieve(mode, q, k, search, embed);
    if hits.Raised? {
      return Raised(hits.exception), None;
    }
    var p := MakePrompt(q, hits.value);
    prompt := Some(p);
    var reply := call(p);
    if reply.Raised? {
      return Raised(reply.exception), prompt;
    }
    var answer := Strip(reply.value);
    var citations := BuildCitations(hits.value);
    r := Ok(QueryOut(answer, citations));
  }
}
