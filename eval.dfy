/** The retrieval evaluation (scripts/eval.py): each evaluation item pairs a question
    with gold criteria, and a question counts as a hit when one of the retrieved hits
    meets a criterion. */
module Eval {
  import opened Common
  import opened Text
  import opened Searcher

  /** The gold criteria of an item: `filename`, `drive_url` and `contains`. */
  datatype Gold = Gold(filename: Field<string>, driveUrl: Field<string>, contains: Field<string>)

  /** One evaluation item: `item["q"]` and `item["gold"]`. */
  datatype Item = Item(q: string, gold: Gold)

  /** `(gold.get("filename") or "").lower()` */
  function WantFilename(g: Gold): string { Lower(StrOr(g.filename.Get(), "")) }

  /** `(gold.get("drive_url") or "").strip()` */
  function WantUrl(g: Gold): string { Strip(StrOr(g.driveUrl.Get(), "")) }

  /** `(gold.get("contains") or "").lower()` */
  function WantContains(g: Gold): string { Lower(StrOr(g.contains.Get(), "")) }

  /** The text searched for `contains`: the lower-cased snippet, or the lower-cased text
      when the snippet is missing, None or empty. */
  function Haystack(h: Hit): string {
    var snippet := Lower(StrOr(h.snippet.Get(), ""));
    if snippet != "" then snippet else Lower(StrOr(h.text.Get(), ""))
  }

  /** One hit meets one of the gold criteria; an empty criterion is ignored. */
  predicate Matches(h: Hit, g: Gold) {
    || (WantFilename(g) != "" && Lower(StrOr(h.filename.Get(), "")) == WantFilename(g))
    || (WantUrl(g) != "" && Strip(StrOr(h.driveUrl.Get(), "")) == WantUrl(g))
    || (WantContains(g) != "" && Contains(Haystack(h), WantContains(g)))
  }

  /** `is_hit`: the hit flag and the 1-based rank of the first hit that meets a
      criterion, or (False, None) when none does. */
  method IsHit(hits: seq<Hit>, gold: Gold) returns (hit: bool, rank: Option<nat>)
    ensures hit <==> exists i :: 0 <= i < |hits| && Matches(hits[i], gold)
    ensures !hit ==> rank == None
    ensures hit ==> rank.Some? && 1 <= rank.value <= |hits| && Matches(hits[rank.value - 1], gold) &&
                    forall j :: 0 <= j < rank.value - 1 ==> !Matches(hits[j], gold)
  {
    var wantFn := Lower(StrOr(gold.filename.Get(), ""));
    var wantUrl := Strip(StrOr(gold.driveUrl.Get(), ""));
    var wantContains := Lower(StrOr(gold.contains.Get(), ""));
    for i := 0 to |hits|
      invariant forall j :: 0 <= j < i ==> !Matches(hits[j], gold)
    {
      var h := hits[i];
      var fn := Lower(StrOr(h.filename.Get(), ""));
      var url := Strip(StrOr(h.driveUrl.Get(), ""));
      var snippet := StrOr(h.snippet.Get(), "");
      var text := StrOr(h.text.Get(), "");
      if wantFn != "" && fn == wantFn {
        return true, Some(i + 1);
      }
      if wantUrl != "" && url == wantUrl {
        return true, Some(i + 1);
      }
      var hay := if Lower(snippet) != "" then Lower(snippet) else Lower(text);
      if wantContains != "" && Contains(hay, wantContains) {
        return true, Some(i + 1);
      }
    }
    return false, None;
  }

  /** The rank `is_hit` reports, as a function: the 1-based position of the first hit
      meeting a criterion. */
  function FirstMatch(hits: seq<Hit>, gold: Gold): Option<nat> {
    if hits == [] then None
    else if Matches(hits[0], gold) then Some(1)
    else
      var r := FirstMatch(hits[1..], gold);
      if r.Some? then Some(r.value + 1) else None
  }

  /** `FirstMatch` is the least matching rank, and None exactly when no hit matches. */
  lemma {:induction false} FirstMatchIsLeast(hits: seq<Hit>, gold: Gold)
    ensures var r := FirstMatch(hits, gold);
            && (r.None? <==> forall i :: 0 <= i < |hits| ==> !Matches(hits[i], gold))
            && (r.Some? ==> 1 <= r.value <= |hits| && Matches(hits[r.value - 1], gold) &&
                            forall j :: 0 <= j < r.value - 1 ==> !Matches(hits[j], gold))
  {
    if hits != [] && !Matches(hits[0], gold) {
      FirstMatchIsLeast(hits[1..], gold);
      assert forall i :: 1 <= i < |hits| ==> hits[i] == hits[1..][i - 1];
    }
  }

  /** The hit flag of `is_hit` is the flag of `FirstMatch`. */
  lemma HitFlag(hits: seq<Hit>, gold: Gold, hit: bool)
    requires hit <==> exists i :: 0 <= i < |hits| && Matches(hits[i], gold)
    ensures FirstMatch(hits, gold).Some? == hit
  {
    FirstMatchIsLeast(hits, gold);
  }

  /** Gold criteria that are all missing, None or empty never produce a hit. */
  lemma EmptyGoldNeverHits(hits: seq<Hit>, gold: Gold)
    requires StrOr(gold.filename.Get(), "") == "" && StrOr(gold.driveUrl.Get(), "") == ""
    requires StrOr(gold.contains.Get(), "") == ""
    ensures FirstMatch(hits, gold) == None
  {
    assert Strip("") == "" && Lower("") == "";
    FirstMatchIsLeast(hits, gold);
  }

  /** The filename criterion ignores letter case on both sides. */
  lemma FilenameIgnoresCase(h: Hit, gold: Gold, name: string)
    requires Lower(name) != ""
    requires gold.filename == Val(name)
    requires h.filename == Val(Upper(name))
    ensures Matches(h, gold)
  {
    LowerOfUpper(name);
  }

  /** Renaming the hit's file to a name equal up to letter case keeps the verdict. */
  lemma HitFilenameCaseIrrelevant(h: Hit, gold: Gold, f: string, g: string)
    requires Lower(f) == Lower(g)
    ensures Matches(h.(filename := Val(f)), gold) == Matches(h.(filename := Val(g)), gold)
  {
  }

  /** Renaming the gold file to a name equal up to letter case keeps the verdict. */
  lemma GoldFilenameCaseIrrelevant(h: Hit, gold: Gold, f: string, g: string)
    requires Lower(f) == Lower(g)
    ensures Matches(h, gold.(filename := Val(f))) == Matches(h, gold.(filename := Val(g)))
  {
  }

  /** A non-empty snippet hides the text from the `contains` criterion. */
  lemma SnippetShadowsText(h: Hit, gold: Gold, text: Field<string>)
    requires StrOr(h.snippet.Get(), "") != ""
    ensures Matches(h.(text := text), gold) == Matches(h, gold)
  {
    var s := StrOr(h.snippet.Get(), "");
    assert |Lower(s)| == |s|;
  }

  // ---------------------------------------------------------------- evaluate

  /** A retrieval function `search_fn(q, k)`: the hits, or the exception it raised. */
  type SearchFn = (string, int) -> Outcome<seq<Hit>>

  /** `elser_only if mode == "elser" else hybrid_rrf` */
  function Chosen(mode: string, elserOnly: SearchFn, hybridRrf: SearchFn): SearchFn {
    if mode == "elser" then elserOnly else hybridRrf
  }

  /** The verdict on one item: the exception its retrieval raised, or whether one of
      the retrieved hits matches. */
  function Judged(searchFn: SearchFn, k: int, item: Item): Outcome<bool> {
    var hits := searchFn(item.q, k);
    if hits.Raised? then Raised(hits.exception) else Ok(FirstMatch(hits.value, item.gold).Some?)
  }

  /** The verdicts on the items, in order. */
  function Judgements(searchFn: SearchFn, k: int, items: seq<Item>): (js: seq<Outcome<bool>>)
    ensures |js| == |items|
  {
    if items == [] then []
    else Judgements(searchFn, k, items[..|items| - 1]) + [Judged(searchFn, k, items[|items| - 1])]
  }

  /** `hits_count` after the given verdicts, or the first exception among them. */
  function Tally(js: seq<Outcome<bool>>): Outcome<nat> {
    if js == [] then Ok(0)
    else
      var before := Tally(js[..|js| - 1]);
      var last := js[|js| - 1];
      if before.Raised? then before
      else if last.Raised? then Raised(last.exception)
      else Ok(before.value + if last.value then 1 else 0)
  }

  /** One more verdict either raises, adds one for a hit, or adds nothing. */
  lemma TallySnoc(js: seq<Outcome<bool>>, v: Outcome<bool>)
    ensures Tally(js + [v]) ==
              if Tally(js).Raised? then Tally(js)
              else if v.Raised? then Raised(v.exception)
              else Ok(Tally(js).value + if v.value then 1 else 0)
  {
    assert (js + [v])[..|js|] == js;
  }

  /** The tally never exceeds the number of items; it is zero exactly when no item hits
      and equals the number of items exactly when every item hits. */
  lemma {:induction false} TallyBounds(js: seq<Outcome<bool>>)
    requires Tally(js).Ok?
    ensures var n := Tally(js).value;
            && n <= |js|
            && (forall i :: 0 <= i < |js| ==> js[i].Ok?)
            && (n == 0 <==> forall i :: 0 <= i < |js| ==> !js[i].value)
            && (n == |js| <==> forall i :: 0 <= i < |js| ==> js[i].value)
  {
    if js != [] {
      var init := js[..|js| - 1];
      TallyBounds(init);
      assert forall i :: 0 <= i < |init| ==> init[i] == js[i];
    }
  }

  /** The positions of the verdicts that are hits. */
  ghost function HitPositions(js: seq<Outcome<bool>>): set<nat> {
    set i: nat | i < |js| && js[i].Ok? && js[i].value
  }

  /** The tally is the number of items that hit. */
  lemma {:induction false} TallyCountsHits(js: seq<Outcome<bool>>)
    requires Tally(js).Ok?
    ensures Tally(js).value == |HitPositions(js)|
  {
    if js != [] {
      var k := |js| - 1;
      var init := js[..k];
      TallyCountsHits(init);
      assert forall i :: 0 <= i < k ==> init[i] == js[i];
      if js[k].value {
        assert HitPositions(js) == HitPositions(init) + {k};
        assert k !in HitPositions(init);
      } else {
        assert HitPositions(js) == HitPositions(init);
      }
    }
  }

  /** The verdicts on one more item end with its verdict. */
  lemma JudgementsSnoc(searchFn: SearchFn, k: int, items: seq<Item>, idx: nat)
    requires idx < |items|
    ensures Judgements(searchFn, k, items[..idx + 1]) ==
              Judgements(searchFn, k, items[..idx]) + [Judged(searchFn, k, items[idx])]
  {
    assert items[..idx + 1][..idx] == items[..idx];
  }

  /** The verdicts on a prefix of the items are a prefix of the verdicts. */
  lemma {:induction false} JudgementsPrefix(searchFn: SearchFn, k: int, items: seq<Item>, n: nat)
    requires n <= |items|
    ensures Judgements(searchFn, k, items[..n]) == Judgements(searchFn, k, items)[..n]
    decreases |items|
  {
    if n < |items| {
      var init := items[..|items| - 1];
      JudgementsPrefix(searchFn, k, init, n);
      assert init[..n] == items[..n];
    } else {
      assert items[..n] == items;
    }
  }

  /** Once a verdict raised, later verdicts change nothing: the tally stays that
      exception. */
  lemma {:induction false} TallyKeepsFirstRaise(js: seq<Outcome<bool>>, n: nat)
    requires n <= |js| && Tally(js[..n]).Raised?
    ensures Tally(js) == Tally(js[..n])
    decreases |js|
  {
    if n < |js| {
      var init := js[..|js| - 1];
      assert init[..n] == js[..n];
      TallyKeepsFirstRaise(init, n);
    } else {
      assert js[..n] == js;
    }
  }

  /** The body of the loop of `evaluate` up to the tally: retrieve the item's hits and
      judge them with `is_hit`. */
  method JudgeItem(searchFn: SearchFn, k: int, item: Item) returns (v: Outcome<bool>)
    ensures v == Judged(searchFn, k, item)
  {
    var results := searchFn(item.q, k);
    if results.Raised? {
      return Raised(results.exception);
    }
    var ok, rr := IsHit(results.value, item.gold);
    HitFlag(results.value, item.gold, ok);
    v := Ok(ok);
  }

  /** `hits_count` of `evaluate`: SystemExit for an empty item list, otherwise the tally
      of the items' verdicts under the retrieval the mode selects, which is the exception
      of the first retrieval that raised when there is one. */
  method Evaluate(mode: string, k: int, items: seq<Item>, elserOnly: SearchFn, hybridRrf: SearchFn)
    returns (r: Outcome<nat>)
    ensures items == [] ==> r == Raised("SystemExit")
    ensures items != [] ==> r == Tally(Judgements(Chosen(mode, elserOnly, hybridRrf), k, items))
  {
    if items == [] {
      return Raised("SystemExit");
    }
    var hitsCount := 0;
    var searchFn := if mode == "elser" then elserOnly else hybridRrf;
    for idx := 0 to |items|
      invariant Tally(Judgements(searchFn, k, items[..idx])) == Ok(hitsCount)
    {
      var v := JudgeItem(searchFn, k, items[idx]);
      JudgementsSnoc(searchFn, k, items, idx);
      TallySnoc(Judgements(searchFn, k, items[..idx]), v);
      if v.Raised? {
        JudgementsPrefix(searchFn, k, items, idx + 1);
        TallyKeepsFirstRaise(Judgements(searchFn, k, items), idx + 1);
        return Raised(v.exception);
      }
      hitsCount := hitsCount + if v.value then 1 else 0;
    }
    assert items[..|items|] == items;
    r := Ok(hitsCount);
  }
}
