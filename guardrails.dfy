/** The input guardrail (app/generation/guardrails.py): a query is refused when its
    lower-cased text contains one of five fixed phrases. */
module Guardrails {
  import opened Text

  /** `UNSAFE_KEYWORDS` */
  const UnsafeKeywords: seq<string> :=
    ["build a bomb", "make a weapon", "self-harm", "suicide", "credit card generator"]

  /** `REFUSAL`, with a typographic apostrophe. */
  const Refusal: string := "I can\U{2019}t help with that."

  /** `is_safe`: false exactly when some listed phrase occurs in the lower-cased query. */
  function IsSafe(query: string): (r: bool)
    ensures !r <==> exists k, i: nat :: 0 <= k < |UnsafeKeywords| &&
                                        OccursAt(Lower(query), UnsafeKeywords[k], i)
  {
    var q := Lower(query);
    if exists k :: 0 <= k < |UnsafeKeywords| && Contains(q, UnsafeKeywords[k]) then
      UnsafeWitness(q);
      false
    else
      true
  }

  lemma UnsafeWitness(q: string)
    requires exists k :: 0 <= k < |UnsafeKeywords| && Contains(q, UnsafeKeywords[k])
    ensures exists k, i: nat :: 0 <= k < |UnsafeKeywords| && OccursAt(q, UnsafeKeywords[k], i)
  {
    var k :| 0 <= k < |UnsafeKeywords| && Contains(q, UnsafeKeywords[k]);
    var i: nat :| OccursAt(q, UnsafeKeywords[k], i);
  }

  /** Lower-casing twice is lower-casing once. */
  lemma LowerIdempotent(s: string)
    ensures Lower(Lower(s)) == Lower(s)
  {
    assert forall i | 0 <= i < |s| :: LowerChar(LowerChar(s[i])) == LowerChar(s[i]);
  }

  /** Changing the letter case of the query never changes the verdict. */
  lemma CaseInsensitive(query: string)
    ensures IsSafe(Upper(query)) == IsSafe(query)
    ensures IsSafe(Lower(query)) == IsSafe(query)
  {
    LowerOfUpper(query);
    LowerIdempotent(query);
  }

  /** The empty query is safe. */
  lemma EmptyQueryIsSafe()
    ensures IsSafe("")
  {
    assert Lower("") == "";
  }

  /** Text added before or after an unsafe query leaves it unsafe. */
  lemma UnsafeExtended(a: string, query: string, b: string)
    requires !IsSafe(query)
    ensures !IsSafe(a + query + b)
  {
    var k :| 0 <= k < |UnsafeKeywords| && Contains(Lower(query), UnsafeKeywords[k]);
    ContainsExtended(Lower(a), Lower(query), Lower(b), UnsafeKeywords[k]);
    LowerConcat(a + query, b);
    LowerConcat(a, query);
  }

  /** Every listed phrase makes a query unsafe on its own, whatever its case. */
  lemma KeywordsAreUnsafe(k: nat)
    requires k < |UnsafeKeywords|
    ensures !IsSafe(UnsafeKeywords[k]) && !IsSafe(Upper(UnsafeKeywords[k]))
  {
    var w := UnsafeKeywords[k];
    assert Lower(w) == w;
    assert OccursAt(Lower(w), w, 0);
    CaseInsensitive(w);
  }
}
