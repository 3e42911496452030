/** How the rewrite collaborator turns the text-generation service's answer into
    one text (app/openai.go). */
module OpenAI {
  import opened Errors

  /** The first choice of an answer; an answer with no choices is an error,
      never an empty success. */
  function FirstChoice(choices: seq<string>): (r: Result<string>)
    ensures r.Ok? <==> |choices| > 0
    ensures r.Ok? ==> r.value == choices[0]
    ensures r.Err? ==> r.error == NoCompletion
  {
    if |choices| > 0 then Ok(choices[0]) else Err(NoCompletion)
  }

  /** The rewrite call (OpenAISession.ModifyCode): the service's answer is either a
      reported failure, returned as it is, or a list of choices, of which the
      first is the rewritten code. */
  function EditText(answer: Result<seq<string>>): (r: Result<string>)
    ensures answer.Err? ==> r == Err(answer.error)
    ensures answer.Ok? ==> r == FirstChoice(answer.value)
    ensures r.Ok? ==> answer.Ok? && |answer.value| > 0 && r.value == answer.value[0]
    ensures answer == Ok([]) ==> r == Err(NoCompletion)
  {
    match answer
    case Err(e) => Err(e)
    case Ok(choices) => FirstChoice(choices)
  }
}
