# Elastic RAG in Dafny

A model of the deterministic core of Elastic RAG, a retrieval-augmented question
answering service. PDFs from a Google Drive folder are chunked and indexed in
Elasticsearch. Questions are answered by a local language model from the retrieved
chunks. The model covers the text and list processing that sits between the external
services, with every service call replaced by a parameter:

- `Chunker`: `chunk_pages`. Page text is flattened into a stream of whitespace tokens
  tagged with page numbers. A window of `chunk_size` tokens slides over the stream with
  step `chunk_size - overlap`. The sizes fall back as written: `None` or `0` gives 300
  for the size and 60 for the overlap, so a requested overlap of 0 becomes 60.
- `Ingestion`: `run_ingestion`. Each listed file is processed in turn. A failure is
  recorded in the report and the loop goes on.
- `Searcher`: the request bodies sent to the store, and the conversion of the store's
  hits into hit records (`format_hits`, `_format_hits`). Rank fusion happens inside the
  store; the model only builds the body that asks for it.
- `Guardrails`: the keyword safety check.
- `Generator`: `_build_prompt`, `_extract_citations` and `generate_answer`. As written,
  hits from `format_hits` carry a `snippet` but no `text`, so their prompt blocks are bare
  headers.
- `Server`: `make_prompt`, the mode dispatch and the citation list of `/query`.
- `Answer`: the command-line flow, where the guardrail runs before retrieval and
  generation.
- `Eval`: `is_hit` and the `hits_count` tally of `evaluate`.
- `Snippets`: `make_snippet`, covering term extraction, the first whole-word match, the
  window around it, and `<mark>` tags.

The imperative parts are methods with loop invariants, proved against specification
functions such as `ChunksOf`, `PromptOf`, `MakePromptOf`, `GenerateAnswerOf`, `Tally`
and `FirstMatch`. The lemmas state what the source promises about those functions.

The model is parameterised over the things it cannot see:
- the store's search call `search` and the query embedding `embed`, each returning its
  result or the exception it raised;
- the language model calls `ask` and `call`;
- the Drive client's construction and folder listing `list`, returning the listing or the
  exception raised, and the per-file download and extraction `fetch`;
- chunk ids, as functions from positions to strings;
- the clock reading stamped on each chunk, `nows`, and the report's timestamp;
- the `LLM_BACKEND` setting `backend`;
- the retrieval functions that `evaluate` uses.

Exceptions are the `Raised` case of `Outcome`. A dictionary key that may be missing or
`None` is a `Field` (`Absent`, `Null` or `Val`).

## Model

| member | source | states |
|---|---|---|
| Text.Split | app/ingestion/chunker.py:6-8 | every token of `_tokenize` is non-empty and free of whitespace |
| Text.TokenStartsSpec | app/ingestion/chunker.py:6-8 | the token starts from `i` are exactly the non-whitespace positions at or after `i` that open the text or follow whitespace, in increasing order |
| Text.SplitIsRuns | app/ingestion/chunker.py:6-8 | `_tokenize` lists, in order, exactly the maximal non-whitespace runs: the `j`-th token is the run at the `j`-th token start |
| Text.SplitEmptyIffBlank | app/ingestion/chunker.py:6-8 | a text has no tokens exactly when it is all whitespace |
| Chunker.ChunkPages | app/ingestion/chunker.py:10-63 | `None` or 0 sizes take the defaults 300 and 60; sizes failing `0 < size`, `0 <= overlap < size` raise AssertionError; otherwise the result is one chunk per window of the pages' token stream |
| Chunker.FlattenPages | app/ingestion/chunker.py:26-30 | the stream is every page's tokens, in page order, each tagged with its page number |
| Chunker.SlideWindows | app/ingestion/chunker.py:32-63 | the window loop emits exactly the chunks of all windows, in window order, and terminates |
| Chunker.Window | app/ingestion/chunker.py:41-42 | every window is non-empty and holds at most `chunk_size` tokens |
| Chunker.WindowBounds | app/ingestion/chunker.py:40-41 | each window starts inside the stream, and it stops short of the end exactly when another window follows |
| Chunker.WindowChunk | app/ingestion/chunker.py:40-61 | one loop turn: the window is `stream[start:end]`, its text is never empty, it appends the next chunk, it breaks exactly at the last window, and `start` advances by `step` |
| Chunker.WindowStartIsMultiple | app/ingestion/chunker.py:36-37 | window `i` starts at token `i * step` |
| Chunker.WindowsOverlap | app/ingestion/chunker.py:36-41 | a window followed by another has exactly `chunk_size` tokens, and its last `overlap` tokens are the first `overlap` tokens of the next window |
| Chunker.LastWindowReachesEnd | app/ingestion/chunker.py:59-60 | for a non-empty stream the last window ends at the end of the stream |
| Chunker.WindowsCover | app/ingestion/chunker.py:40-61 | every token lies in some window |
| Chunker.WindowCountBracket | app/ingestion/chunker.py:33-40 | an empty stream gives no windows, and so no chunks; a stream that fits in one window gives one; otherwise the count is the least `c` with `size + (c - 1) * step >= n` |
| Chunker.ChunkTextNonEmpty | app/ingestion/chunker.py:43-48 | a window's text is its tokens joined by single spaces, unchanged by `strip` and never empty, so the `if text` guard drops no window |
| Chunker.MinOfIsMinimum | app/ingestion/chunker.py:45 | the minimum is an element and no element is smaller |
| Chunker.MaxOfIsMaximum | app/ingestion/chunker.py:46 | the maximum is an element and no element is larger |
| Chunker.StreamFromPages | app/ingestion/chunker.py:27-30 | every streamed token is a whitespace-free word carrying the page number of an input page |
| Chunker.ChunkPageRange | app/ingestion/chunker.py:44-46 | `page_start <= page_end`, every token's page lies between them, and both are pages of the window's tokens |
| Chunker.ChunkProperties | app/ingestion/chunker.py:43-58 | every chunk carries its id, its own clock reading, `file_id`, `filename` and `drive_url` unchanged, and its window's words joined by spaces (never empty); its page range spans the window and starts and ends at input page numbers |
| Chunker.DefaultSizesExample | app/ingestion/chunker.py:22-23 | with the defaults, 715 tokens give three windows, the last starting at 480 and ending at 715 |
| Ingestion.EffectiveFolder | app/ingestion/google_drive_client.py:15-17 | the argument when it is non-empty, else the configured folder id; no folder at all when both are unset or empty |
| Ingestion.LimitFiles | app/ingestion/ingestion_pipeline.py:21-22 | `None` or 0 keeps the listing; any other limit is a Python slice bound |
| Ingestion.RunIngestion | app/ingestion/ingestion_pipeline.py:15-65 | without a folder, ValueError; an exception from the Drive client or the listing escapes unchanged; otherwise the report and chunks of the listed files up to the limit, each file processed in turn with its failure isolated |
| Ingestion.FileResultAccounts | app/ingestion/ingestion_pipeline.py:28-55 | an entry names its file; it is an error entry exactly when processing raised, and then it carries the message and no chunks; otherwise it records the page count and the chunk count |
| Ingestion.ReportAccounts | app/ingestion/ingestion_pipeline.py:27-56 | one entry per processed file, in listing order, each naming its file and failing exactly when its processing raised; the entries' chunk counts sum to the length of the chunk list |
| Ingestion.ChunksFromProcessedFiles | app/ingestion/ingestion_pipeline.py:31-37 | every returned chunk comes from a successfully processed file and carries its id, name and link |
| Ingestion.ReportTotals | app/ingestion/ingestion_pipeline.py:57-65 | `files_seen` is the number of processed files and of entries; `chunks_total` is the length of the chunk list; `folder_id` and the timestamp are as resolved |
| Searcher.BuildElserOnlyQuery | app/retrieval/searcher.py:19-36 | size `top_k`, the source filter, an ELSER expansion of the question, and one 180-character highlight fragment of `text` |
| Searcher.BuildHybridRrfQuery | app/retrieval/searcher.py:38-72 | `window_size = k = max(50, 10 * top_k)`, `num_candidates = max(100, 2 * k)`, rank constant 60, with the question in both text queries and the vector in kNN |
| Searcher.HybridRrfQuerySizes | app/retrieval/searcher.py:39-42 | `num_candidates >= knn_k = window_size >= top_k`, with at least 50 fused and 100 candidates |
| Searcher.ElserOnlyBody | app/retrieval/searcher.py:95-108 | a `bool.should` of `multi_match` over `text^2` and `filename` and the ELSER expansion, with size `k` |
| Searcher.HybridRrfBody | app/retrieval/searcher.py:193-212 | an `rrf` retriever over the same two queries and kNN, with `k = 50`, 100 candidates, window 50 and constant 60 whatever `k` is |
| Searcher.HybridRrfWindowBelowSize | app/retrieval/searcher.py:194-206 | for `k > 50` the rank window is smaller than the size asked for |
| Searcher.FormattedHit | app/retrieval/searcher.py:115-123 | the record copies `_score` (`None` when missing) and the source's fields, and `page_range = [page_start, page_end]`; the snippet is the first 200 characters of `text`, or "" when the text is missing or `None` |
| Searcher.HighlightedHit | app/retrieval/searcher.py:77-86 | a hit raises exactly when its snippet raises; otherwise it copies `_score` and the source's fields, with the highlight snippet |
| Searcher.FormatHits | app/retrieval/searcher.py:112-124 | KeyError when `hits` is missing; otherwise exactly one record per store hit, in the store's order |
| Searcher.HighlightedSnippet | app/retrieval/searcher.py:85 | the snippet is at most 500 characters: the first highlight fragment, else the source text or ""; IndexError for an empty fragment list; TypeError for a `None` text |
| Searcher.FormatHighlighted | app/retrieval/searcher.py:75-87 | a response without hits yields no records; otherwise the records of the hits, stopping at the first hit that raises |
| Searcher.HighlightedHitsRaise | app/retrieval/searcher.py:77-86 | the first hit that raises decides the outcome of `_format_hits` |
| Searcher.HighlightedHitsOk | app/retrieval/searcher.py:77-87 | when no hit raises, one record per store hit, in order: record `i` is `HighlightedHit` of hit `i`, so its score, file name, link, chunk id, page range and snippet all come from hit `i` |
| Searcher.ElserOnly | app/retrieval/searcher.py:94-110 | the hits are the formatted response to the `bool.should` body; an exception of `es.search` propagates |
| Searcher.HybridRrf | app/retrieval/searcher.py:190-214 | the hits are the formatted response to the `rrf` body built from the query's embedding; a failed embedding raises before the store is asked, and an exception of `es.search` propagates |
| Guardrails.IsSafe | app/generation/guardrails.py:5-7 | unsafe exactly when one of the five listed phrases occurs in the lower-cased query |
| Guardrails.CaseInsensitive | app/generation/guardrails.py:6 | upper- or lower-casing the query never changes the verdict |
| Guardrails.EmptyQueryIsSafe | app/generation/guardrails.py:7 | the empty query is safe |
| Guardrails.UnsafeExtended | app/generation/guardrails.py:7 | text added before or after an unsafe query keeps it unsafe |
| Guardrails.KeywordsAreUnsafe | app/generation/guardrails.py:1-7 | each listed phrase, in any case, is unsafe on its own |
| Answer.AnswerQuestion | scripts/answer.py:13-18 | an unsafe question gets `REFUSAL` with no citations and no search; a safe one is retrieved for and answered by `generate_answer` |
| Generator.FoundIdsAreBracketed | app/generation/generator.py:59 | every id found has at least six characters from `[A-Za-z0-9_-]` and occurs in the text between brackets |
| Generator.IdStartsSpec | app/generation/generator.py:59 | the match positions from `i` are exactly the positions at or after `i` where a bracketed id of six or more id characters starts, in increasing order |
| Generator.FindIdsArePositional | app/generation/generator.py:59 | `re.findall` lists, in order, the ids at all match positions; matches cannot overlap, so none is skipped |
| Generator.FindIdsComplete | app/generation/generator.py:59 | every `[id]` in the text with six or more id characters is found |
| Generator.FindIdsOfBracketed | app/generation/generator.py:59 | a text opening with `[id]` yields `id` first and then the ids of the rest |
| Generator.FindIdsOfTwo | app/generation/generator.py:59 | `[a] [b]` yields `a` then `b` |
| Generator.CitationsOfTwo | app/generation/generator.py:60-65 | of the found ids `a`, `b` with only `a` allowed, only `a` is cited |
| Generator.KnownIdCited | app/generation/generator.py:57-65 | an answer `[a] [b]` with only `a` among the hits' ids cites `a` alone |
| Generator.CitationsExample | app/generation/generator.py:57-65 | `[abc123] [zzz999]` with allowed `abc123` cites `["abc123"]` |
| Generator.NoBracketNoIds | app/generation/generator.py:59 | a text without `[` has no ids |
| Generator.FiveCharacterIdIgnored | app/generation/generator.py:59 | `[abc12]` yields no id |
| Generator.ExtractCitations | app/generation/generator.py:57-65 | the loop keeps the found ids that are allowed, each once, in order of first occurrence |
| Generator.CitationsProperties | app/generation/generator.py:60-65 | a citation is exactly an id that is both found and allowed; there are no duplicates; citations follow first-occurrence order |
| Generator.Cid | app/generation/generator.py:33 | the block id is never empty (`chunk_id`, else `_id`, else "chunk") |
| Generator.HeaderEnds | app/generation/generator.py:37 | a header begins with `[cid]` and ends with `)`, so stripping a block never cuts into it |
| Generator.BuildPrompt | app/generation/generator.py:29-55 | the prompt is the template around one block per hit, joined by `"\n\n---\n\n"` |
| Generator.BlockNamesHit | app/generation/generator.py:37-39 | every block contains its hit's `[cid]` |
| Generator.PromptNamesEveryHit | app/generation/generator.py:29-55 | the prompt names every hit's id in brackets |
| Generator.SearcherHitsHaveEmptyBodies | app/generation/generator.py:38-39 | for a record built by `format_hits`, the block body is empty and the block is its bare header |
| Generator.KnownIds | app/generation/generator.py:73 | an id is known exactly when some hit has it as `chunk_id` or `_id`; hits with neither add nothing |
| Generator.GenerateAnswer | app/generation/generator.py:67-86 | the answer, its citations and the prompt sent are those of `GenerateAnswerOf` |
| Generator.GenerateAnswerWithoutHits | app/generation/generator.py:68-69 | no hits: "I don't know.", no citations, and no prompt sent |
| Generator.GenerateAnswerBackend | app/generation/generator.py:71-83 | only the "ollama" backend sends the prompt and answers with the reply; any other backend gives the bare refusal with no citations |
| Generator.GenerateAnswerFailure | app/generation/generator.py:76-80 | a failed model call gives "I don't know. (generation error)" with no citations |
| Generator.GenerateAnswerCitations | app/generation/generator.py:73-86 | every citation is the id of one of the hits, cited once |
| Generator.RefusalsHaveNoIds | app/generation/generator.py:80-85 | neither refusal text yields a citation |
| Generator.AnswerCitationsFromHits | app/generation/generator.py:85 | every citation is found in the answer and is the id of a hit, with no repeats |
| Server.Retrieved | app/api/server.py:68 | mode "elser" sends the `elser_only` body; any other mode embeds the question, raising when that fails, and sends the `hybrid_rrf` body; the store's exception or formatted response is the outcome |
| Server.Retrieve | app/api/server.py:68 | the hits are the outcome of the selected retrieval |
| Server.MakePrompt | app/api/server.py:46-63 | the prompt is the template around the first ten numbered blocks, joined by blank lines |
| Server.OnlyFirstTenHits | app/api/server.py:53 | hits after the tenth never change the prompt |
| Server.PartNumbered | app/api/server.py:48-52 | block `i` begins with `[i]`, counting from 1 |
| Server.CitationOf | app/api/server.py:74-81 | a citation has the given rank, the hit's fields unchanged, and the first 300 characters of its snippet |
| Server.BuildCitations | app/api/server.py:72-82 | one citation per hit, in hit order, ranked from 1 |
| Server.Query | app/api/server.py:66-83 | a failed retrieval (embedding, store or formatting) or model call raises; otherwise the answer is the stripped reply to the prompt of the hits, and every hit is cited |
| Eval.IsHit | scripts/eval.py:7-28 | `(True, i)` with `i` the least 1-based rank of a hit meeting a gold criterion, or `(False, None)` when none does |
| Eval.FirstMatchIsLeast | scripts/eval.py:16-28 | the first match is the least matching rank, and it is absent exactly when no hit matches |
| Eval.HitFlag | scripts/eval.py:22-28 | the hit flag agrees with the presence of a first match |
| Eval.EmptyGoldNeverHits | scripts/eval.py:12-28 | gold criteria that are all missing, `None` or empty never give a hit |
| Eval.FilenameIgnoresCase | scripts/eval.py:12-22 | a hit whose file name is the gold name upper-cased meets the filename criterion |
| Eval.HitFilenameCaseIrrelevant | scripts/eval.py:12-22 | two hit file names equal up to letter case get the same verdict |
| Eval.GoldFilenameCaseIrrelevant | scripts/eval.py:12-22 | two gold file names equal up to letter case give the same verdict |
| Eval.SnippetShadowsText | scripts/eval.py:19-26 | with a non-empty snippet, the hit's `text` cannot change the verdict |
| Eval.JudgeItem | scripts/eval.py:42-46 | one item's verdict is its retrieval's exception, or whether one of its hits matches |
| Eval.TallySnoc | scripts/eval.py:46-47 | one more item adds one for a hit, nothing for a miss, or raises |
| Eval.TallyBounds | scripts/eval.py:36-47 | `hits_count <= n`; it is 0 exactly when no item hits and `n` exactly when every item hits |
| Eval.TallyCountsHits | scripts/eval.py:36-47 | `hits_count` is the number of items that hit |
| Eval.TallyKeepsFirstRaise | scripts/eval.py:41-47 | after a retrieval raises, later items change nothing |
| Eval.Evaluate | scripts/eval.py:30-47 | no items: SystemExit; otherwise `hits_count` over all items under the retrieval the mode selects, or the first retrieval exception |
| Snippets.Words | app/utils/snippets.py:4 | every `\w+` word is a non-empty run of word characters of the query |
| Snippets.LongWords | app/utils/snippets.py:4 | a term is exactly a word longer than two characters |
| Snippets.Terms | app/utils/snippets.py:4 | every term is a word of more than two characters |
| Snippets.TermsAreLowerCase | app/utils/snippets.py:4-7 | terms are lower case, so comparing a lower-cased text word with them is the `(?i)` comparison |
| Snippets.TermsIgnoreCase | app/utils/snippets.py:4 | the terms do not depend on the case of the query |
| Snippets.WordStartsSpec | app/utils/snippets.py:4 | the word starts from `i` are exactly the word-character positions at or after `i` that open the text or follow a non-word character, in increasing order |
| Snippets.WordsAreRuns | app/utils/snippets.py:4 | `re.findall(r"\w+", s)` lists, in order, exactly the maximal runs of word characters: the `j`-th word is the run at the `j`-th word start |
| Snippets.WordsMembership | app/utils/snippets.py:4 | a string is a word of `s` exactly when it is the run at some word start |
| Snippets.TermsAreLongWords | app/utils/snippets.py:4 | a term is exactly a maximal run of word characters of the lower-cased query that is longer than two characters |
| Snippets.FindFromIsFirst | app/utils/snippets.py:7-8 | the scan from `i` returns the first whole-word term occurrence at or after `i`, or none when there is none |
| Snippets.SearchIsFirst | app/utils/snippets.py:7-8 | `pattern.search` finds the leftmost whole-word occurrence of a term, and finds none exactly when there is none |
| Snippets.Segments | app/utils/snippets.py:15 | the first segment is a word exactly when the text starts with a word character |
| Snippets.SegmentsCover | app/utils/snippets.py:15 | the segments' characters, in order, are the window's text |
| Snippets.SegmentsPartition | app/utils/snippets.py:15 | the window splits into non-word characters and maximal words, and a word is marked exactly when it is a term, so marking only adds tags |
| Snippets.SegmentWordsAreWords | app/utils/snippets.py:15 | the words the substitution sees are the `\w+` words of the window |
| Snippets.RenderLength | app/utils/snippets.py:15 | each marked word adds the 13 characters of its tags and nothing else changes the length |
| Snippets.MarkUnchangedIffNoMatch | app/utils/snippets.py:15 | `pattern.sub` leaves the window unchanged exactly when no term occurs in it as a whole word |
| Snippets.SnippetFallback | app/utils/snippets.py:5-10 | without terms, or without a whole-word match, the snippet is `text[:width]` |
| Snippets.WindowBounds | app/utils/snippets.py:11-13 | for `width >= 0` the window holds at most `width` characters; for `width > 0` it lies in the text and contains the match position |
| Snippets.SnippetAroundMatch | app/utils/snippets.py:11-15 | with a first match at `m`, the snippet is the marked window `[max(0, m - width // 2), min(len, start + width))` |
| Snippets.MakeSnippetFallback | app/utils/snippets.py:3-10 | when no term of the query occurs in the text as a whole word (in particular when the query has no term), `make_snippet` returns `text[:width]` |
| Snippets.MakeSnippetAroundMatch | app/utils/snippets.py:3-15 | with a first whole-word occurrence of a query term at `m`, `make_snippet` returns the window around `m` with the terms marked |

## Left out

- Network and storage I/O: Elasticsearch (`es.search`, the clients, the index mapping), the Ollama HTTP calls (`_ask_ollama`, `call_ollama`), the Google Drive client and PDF extraction. Each is a parameter; reciprocal rank fusion runs inside Elasticsearch and has no client code.
- Embeddings are an opaque `seq<real>` from the parameter `embed`. Scores are copied as values and never computed.
- `chunk_id` (uuid4), each chunk's own `ingested_at` clock reading (app/ingestion/models.py:24) and the report's `ingested_at` are parameters.
- Settings and environment: `CHUNK_SIZE_TOKENS`/`CHUNK_OVERLAP_TOKENS` are the constants 300 and 60, so the chunker called from `run_ingestion` never raises. `LLM_BACKEND` is the parameter `backend`; `GDRIVE_FOLDER_ID` is the parameter `configured`.
- Unicode: `str.split`, `str.strip`, `str.lower`/`upper` and `\w` use ASCII whitespace, letters and word characters.
- Python's dynamic typing: a `page_range` or `_source` that is present but `None`, and non-string field values, are not modelled.
- `scripts/eval.py`: reading and parsing the JSON lines file, the `item["q"]` and `item["gold"]` KeyErrors (every item carries both), the reciprocal ranks, `statistics.fmean`, `round`, the verbose printing and the summary dictionary. `evaluate` takes the two retrieval functions as parameters.
- `write_report`, the `/ingest` and `/healthz` endpoints, the FastAPI plumbing, the argparse entry points, and the Streamlit UI.
- The commented-out query variants in `app/retrieval/searcher.py`.
- Snippets.WindowBounds: gives no length bound for a negative `width`. There the slice end counts from the end of the text, so the window can hold characters although `width` is below zero.
