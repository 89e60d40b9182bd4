/** The command-line question answering flow (scripts/answer.py): the guardrail runs
    before anything else, and only a safe question is sent to retrieval and generation. */
module Answer {
  import opened Common
  import opened Searcher
  import opened Guardrails
  import opened Generator
  import opened Server

  /** `main` once the arguments are parsed. The out-parameter `searched` tells whether
      retrieval was started (in hybrid mode a failed embedding stops it before the store
      is asked). */
  method AnswerQuestion(mode: string, q: string, k: int, search: SearchBody -> Outcome<Response>,
                        embed: string -> Outcome<seq<real>>, backend: Option<string>,
                        ask: string -> LlmReply)
    returns (r: Outcome<Generator.Answer>, searched: bool)
    ensures !IsSafe(q) ==> r == Ok(Generator.Answer(Refusal, [])) && !searched
    ensures IsSafe(q) ==> searched
    ensures IsSafe(q) ==>
              var hits := Retrieved(mode, q, k, search, embed);
              r == if hits.Raised? then Raised(hits.exception)
                   else Ok(GenerateAnswerOf(q, hits.value, backend, ask).0)
  {
    if !IsSafe(q) {
      return Ok(Generator.Answer(Refusal, [])), false;
    }
    var hits := Retrieve(mode, q, k, search, embed);
    searched := true;
    if hits.Raised? {
      return Raised(hits.exception), searched;
    }
    var out, _ := GenerateAnswer(q, hits.value, backend, ask);
    r := Ok(out);
  }
}
