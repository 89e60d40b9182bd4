/** Answer generation (app/generation/generator.py): the retrieved hits are laid out as a
    prompt with their chunk ids in brackets, the language model is asked, and the
    bracketed ids of the answer that belong to the hits become its citations.

    The model call `_ask_ollama` is the parameter `ask`, and the `LLM_BACKEND`
    environment variable the parameter `backend`. */
module Generator {
  import opened Common
  import opened Text
  import opened Searcher

  /** `DEFAULT_REFUSAL` */
  const DefaultRefusal: string := "I don't know."

  /** Appended to the refusal when the model call raises. */
  const GenerationError: string := " (generation error)"

  /** The separator between the prompt's context blocks. */
  const BlockSeparator: string := "\n\n---\n\n"

  // ---------------------------------------------------------------- citation ids

  /** `[A-Za-z0-9_-]` */
  predicate IsIdChar(c: char) {
    IsWordChar(c) || c == '-'
  }

  /** Length of the leading run of id characters. */
  function IdRunLen(s: string): (k: nat)
    ensures k <= |s|
    ensures forall i :: 0 <= i < k ==> IsIdChar(s[i])
    ensures k < |s| ==> !IsIdChar(s[k])
  {
    if s != [] && IsIdChar(s[0]) then 1 + IdRunLen(s[1..]) else 0
  }

  /** Whether `s` starts with a match of `\[([A-Za-z0-9_-]{6,})\]`: the repeated class
      never matches `]`, so the match, when there is one, takes the whole run of id
      characters after the bracket. */
  predicate StartsWithId(s: string) {
    |s| > 0 && s[0] == '[' && IdRunLen(s[1..]) >= 6 && IdRunLen(s[1..]) + 1 < |s| &&
    s[IdRunLen(s[1..]) + 1] == ']'
  }

  /** `re.findall(r"\[([A-Za-z0-9_-]{6,})\]", s)`: the bracketed ids of `s`, left to right,
      the scan resuming after each match. */
  function FindIds(s: string): seq<string>
    decreases |s|
  {
    if s == [] then []
    else if StartsWithId(s) then
      var k := IdRunLen(s[1..]);
      [s[1..k + 1]] + FindIds(s[k + 2..])
    else FindIds(s[1..])
  }

  /** A match at the start of `s` is an id of six or more id characters between
      brackets, followed by the rest of `s`. */
  lemma FirstId(s: string)
    requires StartsWithId(s)
    ensures var k := IdRunLen(s[1..]);
            var id := s[1..k + 1];
            && |id| >= 6 && (forall c :: c in id ==> IsIdChar(c))
            && s[..k + 2] == "[" + id + "]"
            && s == "[" + id + "]" + s[k + 2..]
  {
    var k := IdRunLen(s[1..]);
    var id := s[1..k + 1];
    forall c | c in id
      ensures IsIdChar(c)
    {
      var j :| 0 <= j < |id| && id[j] == c;
      assert c == s[1..][j];
    }
    assert s[..k + 2] == "[" + id + "]";
    assert s == s[..k + 2] + s[k + 2..];
  }

  /** What a suffix of `s` contains, `s` contains. */
  lemma ContainsInSuffix(s: string, n: nat, needle: string)
    requires n <= |s| && Contains(s[n..], needle)
    ensures Contains(s, needle)
  {
    ContainsExtended(s[..n], s[n..], [], needle);
    assert s[..n] + s[n..] + [] == s;
  }

  /** Every id in `ids` is at least six id characters long and occurs in `s` between
      brackets. */
  ghost predicate AllBracketed(s: string, ids: seq<string>) {
    forall id :: id in ids ==>
      |id| >= 6 && (forall c :: c in id ==> IsIdChar(c)) && Contains(s, "[" + id + "]")
  }

  /** What is bracketed in a suffix of `s` is bracketed in `s`. */
  lemma BracketedInSuffix(s: string, n: nat, ids: seq<string>)
    requires n <= |s| && AllBracketed(s[n..], ids)
    ensures AllBracketed(s, ids)
  {
    forall x | x in ids
      ensures Contains(s, "[" + x + "]")
    {
      ContainsInSuffix(s, n, "[" + x + "]");
    }
  }

  /** A match at the start of `s` adds a bracketed id in front of those of the rest. */
  lemma BracketedMatch(s: string)
    requires StartsWithId(s)
    requires AllBracketed(s[IdRunLen(s[1..]) + 2..], FindIds(s[IdRunLen(s[1..]) + 2..]))
    ensures AllBracketed(s, FindIds(s))
  {
    var k := IdRunLen(s[1..]);
    var id := s[1..k + 1];
    var rest := s[k + 2..];
    FirstId(s);
    FindIdsOfBracketed(s, id, rest);
    var tag := "[" + id + "]";
    assert |tag| == k + 2;
    ContainsAtStart(s, tag);
    BracketedInSuffix(s, k + 2, FindIds(rest));
    BracketedCons(s, id, FindIds(rest));
  }

  lemma BracketedCons(s: string, id: string, ids: seq<string>)
    requires |id| >= 6 && (forall c :: c in id ==> IsIdChar(c)) && Contains(s, "[" + id + "]")
    requires AllBracketed(s, ids)
    ensures AllBracketed(s, [id] + ids)
  {
  }

  /** Every id found is at least six id characters long and occurs in `s` between
      brackets. */
  lemma {:induction false} FoundIdsAreBracketed(s: string)
    ensures forall id :: id in FindIds(s) ==>
              |id| >= 6 && (forall c :: c in id ==> IsIdChar(c)) && Contains(s, "[" + id + "]")
    decreases |s|
  {
    if s == [] {
    } else if StartsWithId(s) {
      var k := IdRunLen(s[1..]);
      FoundIdsAreBracketed(s[k + 2..]);
      BracketedMatch(s);
    } else {
      FoundIdsAreBracketed(s[1..]);
      BracketedInSuffix(s, 1, FindIds(s[1..]));
    }
  }

  /** A bracketed id starts at position `p` of `s`. */
  predicate IdAt(s: string, p: nat) {
    p < |s| && StartsWithId(s[p..])
  }

  /** The id of the match at `p`: the run of id characters after the bracket. */
  function IdOf(s: string, p: nat): (id: string)
    requires p < |s|
    ensures |id| == IdRunLen(s[p..][1..])
  {
    s[p..][1..IdRunLen(s[p..][1..]) + 1]
  }

  /** The positions at or after `i` where a bracketed id starts, left to right. */
  function IdStarts(s: string, i: nat): (ps: seq<nat>)
    requires i <= |s|
    ensures forall j :: 0 <= j < |ps| ==> i <= ps[j] < |s|
    decreases |s| - i
  {
    if i == |s| then []
    else if IdAt(s, i) then [i] + IdStarts(s, i + 1)
    else IdStarts(s, i + 1)
  }

  /** `IdStarts(s, i)` holds every match position at or after `i` and nothing else, in
      strictly increasing order. */
  lemma {:induction false} IdStartsSpec(s: string, i: nat)
    requires i <= |s|
    ensures var ps := IdStarts(s, i);
            && (forall p :: p in ps <==> i <= p && IdAt(s, p))
            && (forall j, k :: 0 <= j < k < |ps| ==> ps[j] < ps[k])
    decreases |s| - i
  {
    if i < |s| {
      IdStartsSpec(s, i + 1);
    }
  }

  /** No match starts in `[a, b)`, so the match positions from `a` are those from `b`. */
  lemma {:induction false} NoIdStartBetween(s: string, a: nat, b: nat)
    requires a <= b <= |s|
    requires forall p :: a <= p < b ==> !IdAt(s, p)
    ensures IdStarts(s, a) == IdStarts(s, b)
    decreases b - a
  {
    if a < b {
      NoIdStartBetween(s, a + 1, b);
    }
  }

  /** Without a match at `i` the scan moves one character on. */
  lemma {:induction false} FindIdsSkip(s: string, i: nat)
    requires i < |s| && !IdAt(s, i)
    ensures FindIds(s[i..]) == FindIds(s[i + 1..])
    ensures IdStarts(s, i) == IdStarts(s, i + 1)
  {
    assert s[i..][1..] == s[i + 1..];
  }

  /** A match at `i` gives its id and the scan resumes after the closing bracket. */
  lemma FindIdsTake(s: string, i: nat)
    requires IdAt(s, i)
    ensures var e := i + IdRunLen(s[i..][1..]) + 2;
            && e <= |s|
            && FindIds(s[i..]) == [IdOf(s, i)] + FindIds(s[e..])
  {
    var k := IdRunLen(s[i..][1..]);
    assert s[i..][k + 2..] == s[i + k + 2..];
  }

  /** No match starts inside the match at `i`, since its characters are id characters
      and `]`; the next match position is past it. */
  lemma IdStartsPastMatch(s: string, i: nat)
    requires IdAt(s, i)
    ensures IdStarts(s, i) == [i] + IdStarts(s, i + IdRunLen(s[i..][1..]) + 2)
  {
    var k := IdRunLen(s[i..][1..]);
    forall p | i + 1 <= p < i + k + 2
      ensures !IdAt(s, p)
    {
      if p < i + k + 1 {
        assert s[p] == s[i..][1..][p - i - 1];
      } else {
        assert s[p] == s[i..][k + 1];
      }
      assert s[p..][0] == s[p];
    }
    NoIdStartBetween(s, i + 1, i + k + 2);
  }

  /** `ids` are the ids of the matches of `s` at positions `ps`, in order. */
  predicate IdsAt(s: string, ids: seq<string>, ps: seq<nat>) {
    if ps == [] then ids == []
    else ids != [] && ps[0] < |s| && ids[0] == IdOf(s, ps[0]) && IdsAt(s, ids[1..], ps[1..])
  }

  /** `IdsAt` position by position. */
  lemma {:induction false} IdsAtIndex(s: string, ids: seq<string>, ps: seq<nat>)
    requires IdsAt(s, ids, ps)
    ensures |ids| == |ps| && forall j :: 0 <= j < |ps| ==> ps[j] < |s| && ids[j] == IdOf(s, ps[j])
  {
    if ps != [] {
      IdsAtIndex(s, ids[1..], ps[1..]);
      assert forall j :: 0 < j < |ps| ==> ids[j] == ids[1..][j - 1] && ps[j] == ps[1..][j - 1];
    }
  }

  lemma IdsAtCons(s: string, ids: seq<string>, ps: seq<nat>, p: nat, ids': seq<string>, ps': seq<nat>)
    requires IdsAt(s, ids, ps) && p < |s|
    requires ids' == [IdOf(s, p)] + ids && ps' == [p] + ps
    ensures IdsAt(s, ids', ps')
  {
    assert ids'[1..] == ids && ps'[1..] == ps;
  }

  lemma FindIdsFromMatch(s: string, i: nat, e: nat)
    requires IdAt(s, i) && e == i + IdRunLen(s[i..][1..]) + 2 && e <= |s|
    requires IdsAt(s, FindIds(s[e..]), IdStarts(s, e))
    ensures IdsAt(s, FindIds(s[i..]), IdStarts(s, i))
  {
    FindIdsTake(s, i);
    IdStartsPastMatch(s, i);
    IdsAtCons(s, FindIds(s[e..]), IdStarts(s, e), i, FindIds(s[i..]), IdStarts(s, i));
  }

  /** The ids found in the suffix from `i` are those of the matches at or after `i`. */
  lemma {:induction false} FindIdsFrom(s: string, i: nat)
    requires i <= |s|
    ensures IdsAt(s, FindIds(s[i..]), IdStarts(s, i))
    decreases |s| - i
  {
    if i == |s| {
      assert s[i..] == [];
    } else if !IdAt(s, i) {
      FindIdsFrom(s, i + 1);
      FindIdsSkip(s, i);
    } else {
      var e := i + IdRunLen(s[i..][1..]) + 2;
      FindIdsTake(s, i);
      FindIdsFrom(s, e);
      FindIdsFromMatch(s, i, e);
    }
  }

  /** `re.findall` lists, in order, the ids of all the positions where a bracketed id of
      six or more id characters starts; matches never overlap, so none is skipped. */
  lemma FindIdsArePositional(s: string)
    ensures var ps := IdStarts(s, 0);
            && (forall p :: p in ps <==> IdAt(s, p))
            && (forall j, k :: 0 <= j < k < |ps| ==> ps[j] < ps[k])
            && |FindIds(s)| == |ps|
            && forall j :: 0 <= j < |ps| ==> FindIds(s)[j] == IdOf(s, ps[j])
  {
    IdStartsSpec(s, 0);
    FindIdsFrom(s, 0);
    assert s[0..] == s;
    IdsAtIndex(s, FindIds(s), IdStarts(s, 0));
  }

  /** The id run after `[` in `[id]...` is `id` itself. */
  lemma {:induction false} IdRunOfBracketed(id: string, rest: string)
    requires forall c :: c in id ==> IsIdChar(c)
    ensures IdRunLen(id + "]" + rest) == |id|
    decreases |id|
  {
    if id != [] {
      assert (id + "]" + rest)[1..] == id[1..] + "]" + rest;
      assert forall c :: c in id[1..] ==> c in id;
      IdRunOfBracketed(id[1..], rest);
    } else {
      assert (id + "]" + rest)[0] == ']';
    }
  }

  /** Every bracketed id of six or more id characters in `s` is found. */
  lemma FindIdsComplete(s: string, id: string, i: nat)
    requires |id| >= 6 && forall c :: c in id ==> IsIdChar(c)
    requires OccursAt(s, "[" + id + "]", i)
    ensures id in FindIds(s)
  {
    var t := s[i..];
    var n := |id|;
    assert t[..n + 2] == "[" + id + "]";
    assert t[1..] == id + "]" + t[n + 2..];
    IdRunOfBracketed(id, t[n + 2..]);
    assert t[1..n + 1] == id;
    assert IdAt(s, i) && IdOf(s, i) == id;
    FindIdsArePositional(s);
    var ps := IdStarts(s, 0);
    assert i in ps;
    var j :| 0 <= j < |ps| && ps[j] == i;
    assert FindIds(s)[j] == id;
  }

  /** A bracketed id at the start of a text is found first, and the scan goes on after
      its closing bracket. */
  lemma FindIdsOfBracketed(s: string, id: string, rest: string)
    requires |id| >= 6 && forall c :: c in id ==> IsIdChar(c)
    requires s == "[" + id + "]" + rest
    ensures FindIds(s) == [id] + FindIds(rest)
  {
    assert s[1..] == id + "]" + rest;
    IdRunOfBracketed(id, rest);
    assert s[1..|id| + 1] == id && s[|id| + 2..] == rest;
  }

  /** The ids of `[known] [other]` are the two ids, in order. */
  lemma FindIdsOfTwo(answer: string, known: string, other: string)
    requires |known| >= 6 && forall c :: c in known ==> IsIdChar(c)
    requires |other| >= 6 && forall c :: c in other ==> IsIdChar(c)
    requires answer == "[" + known + "] [" + other + "]"
    ensures FindIds(answer) == [known, other]
  {
    var tail := "[" + other + "]";
    var gap := " " + tail;
    FindIdsOfBracketed(answer, known, gap);
    assert gap[1..] == tail && !StartsWithId(gap);
    FindIdsOfBracketed(tail, other, "");
  }

  /** Of two found ids only the allowed first one is cited. */
  lemma CitationsOfTwo(known: string, other: string)
    ensures Citations([known, other], {known}) == [known]
  {
    var found := [known, other];
    assert found[..1] == [known] && found[..1][..0] == [];
    assert Citations(found[..1], {known}) == [known];
  }

  /** An answer quoting a hit's id and then another id cites only the hit's id. */
  lemma KnownIdCited(answer: string, known: string, other: string)
    requires |known| >= 6 && forall c :: c in known ==> IsIdChar(c)
    requires |other| >= 6 && forall c :: c in other ==> IsIdChar(c)
    requires answer == "[" + known + "] [" + other + "]"
    ensures Citations(FindIds(answer), {known}) == [known]
  {
    FindIdsOfTwo(answer, known, other);
    CitationsOfTwo(known, other);
  }

  /** `[abc123] [zzz999]` with only `abc123` among the hits cites `abc123` alone. */
  lemma CitationsExample()
    ensures Citations(FindIds("[abc123] [zzz999]"), {"abc123"}) == ["abc123"]
  {
    var known, other := "abc123", "zzz999";
    assert forall c :: c in known ==> IsIdChar(c);
    assert forall c :: c in other ==> IsIdChar(c);
    KnownIdCited("[abc123] [zzz999]", known, other);
  }

  /** A text without an opening bracket has no ids. */
  lemma {:induction false} NoBracketNoIds(s: string)
    requires '[' !in s
    ensures FindIds(s) == []
    decreases |s|
  {
    if s != [] {
      assert s[0] != '[';
      assert forall c :: c in s[1..] ==> c in s;
      NoBracketNoIds(s[1..]);
    }
  }

  /** An id of five characters is never found. */
  lemma FiveCharacterIdIgnored()
    ensures FindIds("[abc12]") == []
  {
    var s := "[abc12]";
    assert IdRunLen(s[1..]) == 5 by {
      assert s[1..] == "abc12]";
      assert IdRunLen("]") == 0;
      assert IdRunLen("2]") == 1;
      assert IdRunLen("12]") == 2;
      assert IdRunLen("c12]") == 3;
      assert IdRunLen("bc12]") == 4;
    }
    NoBracketNoIds(s[1..]);
  }

  // ---------------------------------------------------------------- _extract_citations

  /** The ids of `found` kept by `_extract_citations`: allowed ones, first occurrence
      only, in order. */
  function Citations(found: seq<string>, allowed: set<string>): seq<string> {
    if found == [] then []
    else
      var out := Citations(found[..|found| - 1], allowed);
      var cid := found[|found| - 1];
      if cid in allowed && cid !in out then out + [cid] else out
  }

  /** `_extract_citations` */
  method ExtractCitations(text: string, allowedIds: seq<string>) returns (out: seq<string>)
    ensures out == Citations(FindIds(text), set x | x in allowedIds)
  {
    var found := FindIds(text);
    var allowed := set x | x in allowedIds;
    out := [];
    for k := 0 to |found|
      invariant out == Citations(found[..k], allowed)
    {
      assert found[..k + 1][..k] == found[..k];
      var cid := found[k];
      if cid in allowed && cid !in out {
        out := out + [cid];
      }
    }
    assert found[..|found|] == found;
  }

  /** The position of the first occurrence of `x` in `xs`. */
  function FirstIndex(xs: seq<string>, x: string): (r: nat)
    requires x in xs
    ensures r < |xs| && xs[r] == x && x !in xs[..r]
  {
    if xs[0] == x then 0
    else
      assert forall y :: y in xs[1..] ==> y in xs;
      var r := FirstIndex(xs[1..], x);
      assert xs[..r + 1] == [xs[0]] + xs[1..][..r];
      1 + r
  }

  lemma FirstIndexInPrefix(xs: seq<string>, m: nat, x: string)
    requires m <= |xs| && x in xs[..m]
    ensures x in xs && FirstIndex(xs, x) == FirstIndex(xs[..m], x)
  {
    var i := FirstIndex(xs[..m], x);
    assert xs[..m][i] == xs[i];
  }

  /** The citations are exactly the allowed ids found, without repetition, in the order
      of their first occurrence. */
  lemma {:induction false} CitationsProperties(found: seq<string>, allowed: set<string>)
    ensures var out := Citations(found, allowed);
            && (forall x :: x in out <==> x in found && x in allowed)
            && (forall i, j :: 0 <= i < j < |out| ==> out[i] != out[j])
            && (forall i, j :: 0 <= i < j < |out| ==>
                  FirstIndex(found, out[i]) < FirstIndex(found, out[j]))
  {
    if found != [] {
      var n := |found| - 1;
      var init := found[..n];
      CitationsProperties(init, allowed);
      var prev := Citations(init, allowed);
      var cid := found[n];
      assert found == init + [cid];
      forall x | x in prev ensures x in found && FirstIndex(found, x) == FirstIndex(init, x) {
        FirstIndexInPrefix(found, n, x);
      }
      if cid in allowed && cid !in prev {
        assert cid !in init;
        assert FirstIndex(found, cid) == n;
      }
    }
  }

  // ---------------------------------------------------------------- _build_prompt

  /** `h.get("chunk_id") or h.get("_id")`, None when both are missing, None or empty. */
  function CitationId(h: Hit): Option<string> {
    if h.chunkId.Val? && h.chunkId.value != "" then Some(h.chunkId.value)
    else if h.id.Val? && h.id.value != "" then Some(h.id.value)
    else None
  }

  /** `cid`: the citation id, or "chunk". */
  function Cid(h: Hit): (c: string)
    ensures c != ""
  {
    if CitationId(h).Some? then CitationId(h).value else "chunk"
  }

  /** `h.get("page_range", [None, None])[i] or h.get(fallback)`: a missing or zero page
      falls back to the `page_start`/`page_end` key. */
  function PageOr(page: Option<int>, fallback: Field<int>): Option<int> {
    if page.Some? && page.value != 0 then page else fallback.Get()
  }

  function FirstPage(h: Hit): Option<int> {
    PageOr(if h.pageRange.Some? then h.pageRange.value.first else None, h.pageStart)
  }

  function LastPage(h: Hit): Option<int> {
    PageOr(if h.pageRange.Some? then h.pageRange.value.second else None, h.pageEnd)
  }

  /** `[cid]` */
  function Tag(h: Hit): string {
    "[" + Cid(h) + "]"
  }

  /** ` filename (p.start-end)`, a missing filename reading "doc". */
  function HeaderRest(h: Hit): string {
    " " + ShowStr(h.filename.GetOr("doc")) + " (p." + ShowInt(FirstPage(h)) + "-" +
    ShowInt(LastPage(h)) + ")"
  }

  /** `[cid] filename (p.start-end)` */
  function Header(h: Hit): string {
    Tag(h) + HeaderRest(h)
  }

  /** A header starts with `[` and ends with `)`, so stripping never cuts into it. */
  lemma HeaderEnds(h: Hit)
    ensures var header := Header(h);
            |header| > |Tag(h)| && header[..|Tag(h)|] == Tag(h) &&
            header[0] == '[' && header[|header| - 1] == ')'
  {
    var rest := HeaderRest(h);
    assert rest[|rest| - 1] == ')';
    assert Tag(h)[0] == '[';
  }

  /** `h.get("text") or h.get("_source", {}).get("text", "")`, as the f-string renders it. */
  function BodyText(h: Hit): string {
    if h.text.Val? && h.text.value != "" then h.text.value else ShowStr(h.sourceText.GetOr(""))
  }

  /** One context block: the header, a line break and the text, stripped. */
  function Block(h: Hit): string {
    Strip(Header(h) + "\n" + BodyText(h))
  }

  function Blocks(hits: seq<Hit>): (bs: seq<string>)
    ensures |bs| == |hits|
  {
    seq(|hits|, i requires 0 <= i < |hits| => Block(hits[i]))
  }

  lemma BlocksSnoc(hits: seq<Hit>, k: nat)
    requires k < |hits|
    ensures Blocks(hits[..k + 1]) == Blocks(hits[..k]) + [Block(hits[k])]
  {
    assert hits[..k + 1][..k] == hits[..k];
  }

  /** The prompt template up to the question. */
  const PromptIntro: string :=
    "You are a helpful RAG assistant.\n\nUse only the CONTEXT to answer the QUESTION. " +
    "If the answer isn't clearly supported by the context, reply exactly: " + DefaultRefusal +
    "\nWhen you borrow evidence, include square-bracket citations using the given chunk ids, " +
    "e.g. [chunk_id].\n\nQUESTION:\n"

  /** The prompt template up to the context, and after it. */
  function PromptHead(question: string): string {
    PromptIntro + question + "\n\nCONTEXT:\n"
  }

  const PromptTail: string := "\n\nFINAL ANSWER (with citations):"

  function PromptText(question: string, context: string): string {
    PromptHead(question) + context + PromptTail
  }

  /** The prompt `_build_prompt` gives for `question` and `hits`. */
  function PromptOf(question: string, hits: seq<Hit>): string {
    PromptText(question, Join(BlockSeparator, Blocks(hits)))
  }

  /** `_build_prompt`: one block per hit, joined by `"\n\n---\n\n"`, inside the template. */
  method BuildPrompt(question: string, hits: seq<Hit>) returns (prompt: string)
    ensures prompt == PromptOf(question, hits)
  {
    var ctxLines: seq<string> := [];
    for k := 0 to |hits|
      invariant ctxLines == Blocks(hits[..k])
    {
      var h := hits[k];
      var header := Header(h);
      var text := BodyText(h);
      BlocksSnoc(hits, k);
      ctxLines := ctxLines + [Strip(header + "\n" + text)];
    }
    assert hits[..|hits|] == hits;
    var context := Join(BlockSeparator, ctxLines);
    prompt := PromptText(question, context);
  }

  /** Each block begins with its header, hence with the hit's id in brackets. */
  lemma BlockNamesHit(h: Hit)
    ensures Contains(Block(h), Tag(h))
  {
    var header := Header(h);
    var y := "\n" + BodyText(h);
    HeaderEnds(h);
    assert header + "\n" + BodyText(h) == header + y;
    StripKeepsPrefix(header, y);
    var block := Block(h);
    assert block[..|Tag(h)|] == block[..|header|][..|Tag(h)|];
    ContainsAtStart(block, Tag(h));
  }

  /** The prompt names every hit's id in brackets, for the model to cite. */
  lemma PromptNamesEveryHit(question: string, hits: seq<Hit>, i: nat)
    requires i < |hits|
    ensures Contains(PromptOf(question, hits), "[" + Cid(hits[i]) + "]")
  {
    var tag := Tag(hits[i]);
    BlockNamesHit(hits[i]);
    JoinContains(BlockSeparator, Blocks(hits), i, tag);
    ContainsExtended(PromptHead(question), Join(BlockSeparator, Blocks(hits)), PromptTail, tag);
  }

  /** The hits `format_hits` returns carry `snippet` but neither `text` nor a `_source`
      text, so each of their blocks is the bare header: the prompt holds no passage text. */
  lemma SearcherHitsHaveEmptyBodies(sh: StoreHit)
    ensures Block(FormattedHit(sh)) == Header(FormattedHit(sh))
    ensures BodyText(FormattedHit(sh)) == ""
  {
    var h := FormattedHit(sh);
    var header := Header(h);
    HeaderEnds(h);
    assert BodyText(h) == "";
    assert header + "\n" + BodyText(h) == header + "\n";
    StripDropsTrailingSpaces(header, "\n");
  }

  // ---------------------------------------------------------------- generate_answer

  /** `known_ids`: the citation id of every hit that has one, in hit order. */
  function KnownIds(hits: seq<Hit>): (ids: seq<string>)
    ensures forall x :: x in ids <==> exists h :: h in hits && CitationId(h) == Some(x)
  {
    if hits == [] then []
    else
      var init := hits[..|hits| - 1];
      var h := hits[|hits| - 1];
      assert hits == init + [h];
      KnownIds(init) + (if CitationId(h).Some? then [CitationId(h).value] else [])
  }

  /** What the model call returns: its stripped response text, or a failure (any
      exception raised by the HTTP request). */
  datatype LlmReply = Reply(text: string) | Failed

  datatype Answer = Answer(answer: string, citations: seq<string>)

  /** `os.getenv("LLM_BACKEND", "ollama").lower()` */
  function BackendName(backend: Option<string>): string {
    Lower(if backend.Some? then backend.value else "ollama")
  }

  /** The answer text once a prompt has been sent. */
  function ReplyText(reply: LlmReply): string {
    match reply
    case Reply(t) => t
    case Failed => DefaultRefusal + GenerationError
  }

  /** The text of the answer: the model's reply for the "ollama" backend, the refusal for
      any other. */
  function AnswerText(question: string, hits: seq<Hit>, backend: Option<string>,
                      ask: string -> LlmReply): string {
    if BackendName(backend) == "ollama" then ReplyText(ask(PromptOf(question, hits)))
    else DefaultRefusal
  }

  /** What `generate_answer` returns, and the prompt it sends to the model (None when the
      model is not called). */
  function GenerateAnswerOf(question: string, hits: seq<Hit>, backend: Option<string>,
                            ask: string -> LlmReply): (Answer, Option<string>) {
    if hits == [] then (Answer(DefaultRefusal, []), None)
    else
      var text := AnswerText(question, hits, backend, ask);
      (Answer(text, Citations(FindIds(text), set x | x in KnownIds(hits))),
       if BackendName(backend) == "ollama" then Some(PromptOf(question, hits)) else None)
  }

  /** `generate_answer`. The out-parameter `asked` is the prompt sent to the model, None
      when the model is not called. */
  method GenerateAnswer(question: string, hits: seq<Hit>, backend: Option<string>,
                        ask: string -> LlmReply)
    returns (out: Answer, asked: Option<string>)
    ensures (out, asked) == GenerateAnswerOf(question, hits, backend, ask)
  {
    if hits == [] {
      out := Answer(DefaultRefusal, []);
      return out, None;
    }
    var llmBackend := BackendName(backend);
    var prompt := BuildPrompt(question, hits);
    var knownIds := KnownIds(hits);
    var answer;
    if llmBackend == "ollama" {
      asked := Some(prompt);
      match ask(prompt)
      case Reply(t) =>
        answer := t;
      case Failed =>
        answer := DefaultRefusal + GenerationError;
    } else {
      asked := None;
      answer := DefaultRefusal;
    }
    var cits := ExtractCitations(answer, knownIds);
    out := Answer(answer, cits);
  }

  /** Without hits the answer is the refusal, nothing is cited and the model is not
      asked. */
  lemma GenerateAnswerWithoutHits(question: string, backend: Option<string>, ask: string -> LlmReply)
    ensures GenerateAnswerOf(question, [], backend, ask) == (Answer(DefaultRefusal, []), None)
  {
  }

  /** With hits the prompt goes to the model only for the "ollama" backend; any other
      backend yields the bare refusal, citing nothing. */
  lemma GenerateAnswerBackend(question: string, hits: seq<Hit>, backend: Option<string>,
                              ask: string -> LlmReply)
    requires hits != []
    ensures BackendName(backend) == "ollama" ==>
              var (out, asked) := GenerateAnswerOf(question, hits, backend, ask);
              asked == Some(PromptOf(question, hits)) &&
              out.answer == ReplyText(ask(PromptOf(question, hits)))
    ensures BackendName(backend) != "ollama" ==>
              GenerateAnswerOf(question, hits, backend, ask) == (Answer(DefaultRefusal, []), None)
  {
    RefusalsHaveNoIds();
  }

  /** A failed model call yields the refusal marked as a generation error, citing
      nothing. */
  lemma GenerateAnswerFailure(question: string, hits: seq<Hit>, backend: Option<string>,
                              ask: string -> LlmReply)
    requires hits != [] && BackendName(backend) == "ollama"
    requires ask(PromptOf(question, hits)).Failed?
    ensures GenerateAnswerOf(question, hits, backend, ask).0 ==
              Answer(DefaultRefusal + GenerationError, [])
  {
    RefusalsHaveNoIds();
  }

  /** Every citation of the answer is the id of one of the hits, cited once. */
  lemma GenerateAnswerCitations(question: string, hits: seq<Hit>, backend: Option<string>,
                                ask: string -> LlmReply)
    ensures var out := GenerateAnswerOf(question, hits, backend, ask).0;
            && (forall c :: c in out.citations ==> exists h :: h in hits && CitationId(h) == Some(c))
            && (forall i, j :: 0 <= i < j < |out.citations| ==> out.citations[i] != out.citations[j])
  {
    if hits != [] {
      AnswerCitationsFromHits(AnswerText(question, hits, backend, ask), hits);
    }
  }

  /** Neither refusal text holds a bracketed id. */
  lemma RefusalsHaveNoIds()
    ensures FindIds(DefaultRefusal) == [] && FindIds(DefaultRefusal + GenerationError) == []
    ensures Citations([], {}) == []
  {
    NoBracketNoIds(DefaultRefusal);
    NoBracketNoIds(DefaultRefusal + GenerationError);
  }

  /** Every citation of an answer is the id of one of the hits, cited once, in the order
      the answer first mentions it. */
  lemma AnswerCitationsFromHits(answer: string, hits: seq<Hit>)
    ensures var cits := Citations(FindIds(answer), set x | x in KnownIds(hits));
            && (forall c :: c in cits ==>
                  c in FindIds(answer) && exists h :: h in hits && CitationId(h) == Some(c))
            && (forall i, j :: 0 <= i < j < |cits| ==> cits[i] != cits[j])
  {
    CitationsProperties(FindIds(answer), set x | x in KnownIds(hits));
  }
}
