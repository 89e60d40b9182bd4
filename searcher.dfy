/** Retrieval against the Elasticsearch index (app/retrieval/searcher.py): the request
    bodies the searcher builds and the conversion of the store's response into hit
    records. The store itself is the parameter `search`, the query embedding `embed`;
    each returns its result or the exception it raised. */
module Searcher {
  import opened Common
  import opened Text

  const ElserModelId: string := ".elser_model_2"
  const TextField: string := "text"
  const ElserField: string := "ml.tokens"
  const VectorField: string := "vector"

  /** `_source_filter()`, the fields the query builders ask for. */
  const SourceFilter: seq<string> :=
    ["filename", "drive_url", "chunk_id", "text", "page_start", "page_end"]

  /** The `_source` list sent by `elser_only` and `hybrid_rrf`. */
  const SearchSource: seq<string> :=
    ["filename", "drive_url", "chunk_id", "page_start", "page_end", "text"]

  // ---------------------------------------------------------------- request bodies

  /** `{"text_expansion": {field: {"model_id": ..., "model_text": ...}}}` */
  datatype TextExpansion = TextExpansion(field: string, modelId: string, modelText: string)

  /** `{"multi_match": {"query": ..., "fields": [...], "type": ...}}` */
  datatype MultiMatch = MultiMatch(query: string, fields: seq<string>, matchType: string)

  /** `{"knn": {"field": ..., "query_vector": ..., "k": ..., "num_candidates": ...}}` */
  datatype Knn = Knn(field: string, queryVector: seq<real>, k: int, numCandidates: int)

  /** `{"fields": {field: {}}, "fragment_size": ..., "number_of_fragments": ...}` */
  datatype Highlight = Highlight(field: string, fragmentSize: int, numberOfFragments: int)

  /** The body of `build_elser_only_query`. */
  datatype ElserOnlyQuery = ElserOnlyQuery(size: int, source: seq<string>,
                                           query: TextExpansion, highlight: Highlight)

  /** The body of `build_hybrid_rrf_query`: an `rrf` rank over a BM25 `match`, an ELSER
      expansion and a kNN query. */
  datatype HybridQuery = HybridQuery(size: int, source: seq<string>,
                                     windowSize: int, rankConstant: int,
                                     matchField: string, matchQuery: string,
                                     expansion: TextExpansion, knn: Knn,
                                     highlight: Highlight)

  /** The bodies `elser_only` and `hybrid_rrf` send to the store. */
  datatype SearchBody =
    | BoolShould(size: int, multiMatch: MultiMatch, expansion: TextExpansion, source: seq<string>)
    | RrfRetriever(size: int, lexical: MultiMatch, semantic: TextExpansion, knn: Knn,
                   rankWindowSize: int, rankConstant: int, source: seq<string>)

  function TextHighlight(): Highlight {
    Highlight(TextField, 180, 1)
  }

  function ElserExpansion(question: string): TextExpansion {
    TextExpansion(ElserField, ElserModelId, question)
  }

  /** `build_elser_only_query`: an ELSER expansion of the question, `top_k` hits, one
      180-character highlight fragment of `text`. */
  function BuildElserOnlyQuery(question: string, topK: int): (q: ElserOnlyQuery)
    ensures q.size == topK && q.source == SourceFilter
    ensures q.query.modelText == question && q.query.field == "ml.tokens"
    ensures q.query.modelId == ".elser_model_2"
    ensures q.highlight == Highlight("text", 180, 1)
  {
    ElserOnlyQuery(topK, SourceFilter, ElserExpansion(question), TextHighlight())
  }

  /** `build_hybrid_rrf_query`. */
  function BuildHybridRrfQuery(question: string, qvec: seq<real>, topK: int): (q: HybridQuery)
    ensures q.size == topK && q.source == SourceFilter && q.rankConstant == 60
    ensures q.windowSize == q.knn.k == Max(50, 10 * topK)
    ensures q.knn.numCandidates == Max(100, 2 * q.knn.k)
    ensures q.knn.queryVector == qvec && q.knn.field == "vector"
    ensures q.matchField == "text" && q.matchQuery == question && q.expansion.modelText == question
    ensures q.highlight == Highlight("text", 180, 1)
  {
    var windowSize := Max(50, topK * 10);
    var rankConstant := 60;
    var knnK := Max(50, topK * 10);
    var numCandidates := Max(100, knnK * 2);
    HybridQuery(topK, SourceFilter, windowSize, rankConstant, TextField, question,
                ElserExpansion(question), Knn(VectorField, qvec, knnK, numCandidates),
                TextHighlight())
  }

  /** For every `top_k`, the kNN query gathers at least as many candidates as
      it keeps, and keeps (and fuses) at least `top_k` of them, never fewer than 50. */
  lemma HybridRrfQuerySizes(question: string, qvec: seq<real>, topK: int)
    ensures var q := BuildHybridRrfQuery(question, qvec, topK);
            q.knn.numCandidates >= q.knn.k && q.knn.k == q.windowSize &&
            q.windowSize >= topK && q.windowSize >= 50 && q.knn.numCandidates >= 100
  {
  }

  function BestFields(q: string): MultiMatch {
    MultiMatch(q, ["text^2", "filename"], "best_fields")
  }

  /** The body `elser_only` sends: BM25 over `text^2` and `filename` or ELSER, `k` hits. */
  function ElserOnlyBody(q: string, k: int): (b: SearchBody)
    ensures b.BoolShould? && b.size == k
    ensures b.multiMatch == MultiMatch(q, ["text^2", "filename"], "best_fields")
    ensures b.expansion == TextExpansion("ml.tokens", ".elser_model_2", q)
    ensures multiset(b.source) == multiset(SourceFilter)
  {
    BoolShould(k, BestFields(q), ElserExpansion(q), SearchSource)
  }

  /** The body `hybrid_rrf` sends: the same two queries and a kNN query, fused by the
      store with fixed sizes whatever `k` is. */
  function HybridRrfBody(q: string, qvec: seq<real>, k: int): (b: SearchBody)
    ensures b.RrfRetriever? && b.size == k
    ensures b.lexical == BestFields(q) && b.semantic == ElserExpansion(q)
    ensures b.knn == Knn("vector", qvec, 50, 100)
    ensures b.rankWindowSize == 50 && b.rankConstant == 60
    ensures multiset(b.source) == multiset(SourceFilter)
  {
    RrfRetriever(k, BestFields(q), ElserExpansion(q), Knn(VectorField, qvec, 50, 100), 50, 60,
                 SearchSource)
  }

  /** With `k` above 50 the store fuses only 50 ranked results per retriever, fewer than
      the `k` hits asked for. */
  lemma HybridRrfWindowBelowSize(q: string, qvec: seq<real>, k: int)
    requires k > 50
    ensures HybridRrfBody(q, qvec, k).rankWindowSize < HybridRrfBody(q, qvec, k).size
  {
  }

  // ---------------------------------------------------------------- responses

  /** The `_source` of a stored chunk as returned by the store. */
  datatype Source = Source(filename: Field<string>, driveUrl: Field<string>,
                           chunkId: Field<string>, text: Field<string>,
                           pageStart: Field<int>, pageEnd: Field<int>)

  /** One element of `resp["hits"]["hits"]`: `_score`, `_source` (None when missing) and
      the `text` fragments of its `highlight` (None when missing). */
  datatype StoreHit = StoreHit(score: Field<real>, source: Option<Source>,
                               highlightText: Option<seq<string>>)

  /** A search response: `resp["hits"]` and within it `["hits"]`, None when missing. */
  datatype Response = Response(hits: Option<Option<seq<StoreHit>>>)

  /** A two-element `page_range` list. */
  datatype PageRange = PageRange(first: Option<int>, second: Option<int>)

  /** A hit record as the searcher's callers read it; keys the searcher never writes are
      `Absent` (`_id`, `page_start`, `page_end`, `_source`'s text) but callers accept them
      too. `pageRange` is None when the key is missing. */
  datatype Hit = Hit(score: Field<real>, filename: Field<string>, driveUrl: Field<string>,
                     chunkId: Field<string>, id: Field<string>, pageRange: Option<PageRange>,
                     pageStart: Field<int>, pageEnd: Field<int>, text: Field<string>,
                     sourceText: Field<string>, snippet: Field<string>)

  const EmptySource: Source := Source(Absent, Absent, Absent, Absent, Absent, Absent)

  /** `h.get("_source", {})` */
  function SourceOf(h: StoreHit): Source {
    if h.source.Some? then h.source.value else EmptySource
  }

  /** The Python value of an optional str: missing and None both read as None. */
  function TextOr(f: Field<string>, default: string): string {
    if f.Val? && f.value != "" then f.value else default
  }

  /** The record `format_hits` builds from one store hit: the source's fields, the page
      range as a pair, and a snippet that is the first 200 characters of the text, or ""
      when the text is missing, None or empty. */
  function FormattedHit(h: StoreHit): (r: Hit)
    ensures var s := SourceOf(h);
            && r.score.Get() == h.score.Get() && r.score != Absent
            && r.filename.Get() == s.filename.Get() && r.filename != Absent
            && r.driveUrl.Get() == s.driveUrl.Get() && r.driveUrl != Absent
            && r.chunkId.Get() == s.chunkId.Get() && r.chunkId != Absent
            && r.pageRange == Some(PageRange(s.pageStart.Get(), s.pageEnd.Get()))
            && r.snippet.Val? && |r.snippet.value| <= 200
            && (s.text.Val? ==> r.snippet.value == s.text.value[..Min(200, |s.text.value|)])
            && (!s.text.Val? ==> r.snippet.value == "")
  {
    var s := SourceOf(h);
    Hit(FieldOf(h.score.Get()), FieldOf(s.filename.Get()), FieldOf(s.driveUrl.Get()),
        FieldOf(s.chunkId.Get()), Absent, Some(PageRange(s.pageStart.Get(), s.pageEnd.Get())), Absent, Absent, Absent, Absent,
        Val(PyPrefix(TextOr(s.text, ""), 200)))
  }

  /** The result of `format_hits` on `resp`. */
  function FormattedHits(resp: Response): Outcome<seq<Hit>> {
    if resp.hits.Some? && resp.hits.value.Some? then
      var hs := resp.hits.value.value;
      Ok(seq(|hs|, i requires 0 <= i < |hs| => FormattedHit(hs[i])))
    else Raised("KeyError")
  }

  /** `format_hits`: `resp["hits"]["hits"]` raises KeyError when either key is missing;
      otherwise one record per store hit, in the store's order. */
  method FormatHits(resp: Response) returns (r: Outcome<seq<Hit>>)
    ensures resp.hits == None || resp.hits == Some(None) ==> r == Raised("KeyError")
    ensures resp.hits.Some? && resp.hits.value.Some? ==>
              var hs := resp.hits.value.value;
              r.Ok? && |r.value| == |hs| &&
              forall i :: 0 <= i < |hs| ==> r.value[i] == FormattedHit(hs[i])
    ensures r == FormattedHits(resp)
  {
    if resp.hits == None || resp.hits.value == None {
      return Raised("KeyError");
    }
    var hs := resp.hits.value.value;
    var out: seq<Hit> := [];
    for i := 0 to |hs|
      invariant |out| == i
      invariant forall j :: 0 <= j < i ==> out[j] == FormattedHit(hs[j])
    {
      out := out + [FormattedHit(hs[i])];
    }
    assert out == FormattedHits(resp).value;
    return Ok(out);
  }

  /** The snippet `_format_hits` takes from one store hit: the first highlight fragment
      of `text` when there is a highlight, otherwise the source text ("" when missing),
      cut to 500 characters. An empty fragment list raises IndexError and a None text
      TypeError. */
  function HighlightedSnippet(h: StoreHit): (r: Outcome<string>)
    ensures r.Ok? ==> |r.value| <= 500
    ensures h.highlightText.Some? && h.highlightText.value != [] ==>
              r == Ok(PyPrefix(h.highlightText.value[0], 500))
    ensures h.highlightText == Some([]) ==> r == Raised("IndexError")
    ensures h.highlightText == None ==>
              match SourceOf(h).text
              case Absent => r == Ok("")
              case Null => r == Raised("TypeError")
              case Val(t) => r == Ok(t[..Min(500, |t|)])
  {
    if h.highlightText.Some? then
      if h.highlightText.value == [] then Raised("IndexError")
      else Ok(PyPrefix(h.highlightText.value[0], 500))
    else
      match SourceOf(h).text.GetOr("")
      case None => Raised("TypeError")
      case Some(t) => Ok(PyPrefix(t, 500))
  }

  /** The record `_format_hits` builds from one store hit. */
  function HighlightedHit(h: StoreHit): (r: Outcome<Hit>)
    ensures r.Raised? <==> HighlightedSnippet(h).Raised?
    ensures r.Ok? ==> var s := SourceOf(h);
                      && r.value.score.Get() == h.score.Get() && r.value.score != Absent
                      && r.value.filename.Get() == s.filename.Get() && r.value.filename != Absent
                      && r.value.driveUrl.Get() == s.driveUrl.Get() && r.value.driveUrl != Absent
                      && r.value.chunkId.Get() == s.chunkId.Get() && r.value.chunkId != Absent
                      && r.value.pageRange == Some(PageRange(s.pageStart.Get(), s.pageEnd.Get()))
                      && r.value.snippet == Val(HighlightedSnippet(h).value)
  {
    var s := SourceOf(h);
    match HighlightedSnippet(h)
    case Raised(e) => Raised(e)
    case Ok(snip) =>
      Ok(Hit(FieldOf(h.score.Get()), FieldOf(s.filename.Get()), FieldOf(s.driveUrl.Get()), FieldOf(s.chunkId.Get()),
             Absent, Some(PageRange(s.pageStart.Get(), s.pageEnd.Get())), Absent, Absent, Absent,
             Absent, Val(snip)))
  }

  /** `resp.get("hits", {}).get("hits", [])` */
  function HitsOrEmpty(resp: Response): seq<StoreHit> {
    if resp.hits.Some? && resp.hits.value.Some? then resp.hits.value.value else []
  }

  /** The records of `_format_hits` for `hs`: the first hit that raises ends the call. */
  function HighlightedHits(hs: seq<StoreHit>): Outcome<seq<Hit>> {
    if hs == [] then Ok([])
    else
      match HighlightedHits(hs[..|hs| - 1])
      case Raised(e) => Raised(e)
      case Ok(out) =>
        match HighlightedHit(hs[|hs| - 1])
        case Raised(e) => Raised(e)
        case Ok(hit) => Ok(out + [hit])
  }

  /** `_format_hits`: a response without hits gives no records. */
  method FormatHighlighted(resp: Response) returns (r: Outcome<seq<Hit>>)
    ensures resp.hits == None || resp.hits == Some(None) ==> r == Ok([])
    ensures r == HighlightedHits(HitsOrEmpty(resp))
  {
    var hs := HitsOrEmpty(resp);
    var out: seq<Hit> := [];
    for i := 0 to |hs|
      invariant HighlightedHits(hs[..i]) == Ok(out)
    {
      assert hs[..i + 1][..i] == hs[..i];
      var hit := HighlightedHit(hs[i]);
      if hit.Raised? {
        HighlightedHitsRaise(hs, i + 1);
        return Raised(hit.exception);
      }
      out := out + [hit.value];
    }
    assert hs[..|hs|] == hs;
    return Ok(out);
  }

  /** Once a hit raises, every longer prefix raises the same exception. */
  lemma {:induction false} HighlightedHitsRaise(hs: seq<StoreHit>, k: nat)
    requires 0 < k <= |hs| && HighlightedHits(hs[..k - 1]).Ok? && HighlightedHit(hs[k - 1]).Raised?
    ensures HighlightedHits(hs) == Raised(HighlightedHit(hs[k - 1]).exception)
    decreases |hs|
  {
    if |hs| == k {
      assert hs[..|hs|] == hs;
    } else {
      assert hs[..|hs| - 1][..k - 1] == hs[..k - 1];
      HighlightedHitsRaise(hs[..|hs| - 1], k);
    }
  }

  /** When no hit raises, `_format_hits` gives one record per store hit, in order: record
      `i` is hit `i`'s score, file name, link, chunk id, page range and snippet. */
  lemma {:induction false} HighlightedHitsOk(hs: seq<StoreHit>)
    requires forall i :: 0 <= i < |hs| ==> HighlightedSnippet(hs[i]).Ok?
    ensures HighlightedHits(hs).Ok? && |HighlightedHits(hs).value| == |hs|
    ensures forall i :: 0 <= i < |hs| ==>
              HighlightedHits(hs).value[i].snippet == Val(HighlightedSnippet(hs[i]).value)
    ensures forall i :: 0 <= i < |hs| ==>
              HighlightedHit(hs[i]).Ok? && HighlightedHits(hs).value[i] == HighlightedHit(hs[i]).value
  {
    if hs != [] {
      HighlightedHitsOk(hs[..|hs| - 1]);
    }
  }

  /** What a retrieval returns once the store was asked: the exception `es.search`
      raised, or the formatted response. */
  function Searched(resp: Outcome<Response>): (r: Outcome<seq<Hit>>)
    ensures resp.Raised? ==> r == Raised(resp.exception)
    ensures resp.Ok? ==> r == FormattedHits(resp.value)
  {
    if resp.Raised? then Raised(resp.exception) else FormattedHits(resp.value)
  }

  /** The outcome of `elser_only(q, k)` against a store whose `search` may raise. */
  function ElserOnlyOf(q: string, k: int, search: SearchBody -> Outcome<Response>): Outcome<seq<Hit>> {
    Searched(search(ElserOnlyBody(q, k)))
  }

  /** The outcome of `hybrid_rrf(q, k)`: a failed embedding raises before the store is
      asked. */
  function HybridRrfOf(q: string, k: int, search: SearchBody -> Outcome<Response>,
                       embed: string -> Outcome<seq<real>>): Outcome<seq<Hit>> {
    match embed(q)
    case Raised(e) => Raised(e)
    case Ok(qvec) => Searched(search(HybridRrfBody(q, qvec, k)))
  }

  /** `elser_only`: the bool query is sent to the store and its response formatted; an
      exception of the store propagates. */
  method ElserOnly(q: string, k: int, search: SearchBody -> Outcome<Response>)
    returns (r: Outcome<seq<Hit>>)
    ensures r == ElserOnlyOf(q, k, search)
    ensures search(ElserOnlyBody(q, k)).Raised? ==> r == Raised(search(ElserOnlyBody(q, k)).exception)
  {
    var body := ElserOnlyBody(q, k);
    var resp := search(body);
    if resp.Raised? {
      return Raised(resp.exception);
    }
    r := FormatHits(resp.value);
  }

  /** `hybrid_rrf`: the query is embedded, the fused retriever body sent to the store and
      its response formatted; an exception of the embedding or of the store propagates. */
  method HybridRrf(q: string, k: int, search: SearchBody -> Outcome<Response>,
                   embed: string -> Outcome<seq<real>>)
    returns (r: Outcome<seq<Hit>>)
    ensures r == HybridRrfOf(q, k, search, embed)
    ensures embed(q).Raised? ==> r == Raised(embed(q).exception)
    ensures embed(q).Ok? && search(HybridRrfBody(q, embed(q).value, k)).Raised? ==>
              r == Raised(search(HybridRrfBody(q, embed(q).value, k)).exception)
  {
    var qvec := embed(q);
    if qvec.Raised? {
      return Raised(qvec.exception);
    }
    var body := HybridRrfBody(q, qvec.value, k);
    var resp := search(body);
    if resp.Raised? {
      return Raised(resp.exception);
    }
    r := FormatHits(resp.value);
  }
}
