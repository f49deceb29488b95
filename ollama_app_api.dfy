/** `askOllama` of the second client (ollama-app/api/ollama.ts): an axios
    POST whose every failure becomes a fixed apology and whose answer is
    `response.data.response ?? 'No response received.'`. */
module OllamaAppApi {
  import opened Wrappers
  import opened JsonValues
  import opened Transport

  const ErrorReply := "Error occurred while processing your request."
  const NoResponse := "No response received."

  /** `response.data` as axios delivers it: the decoded JSON, or the body
      text when it does not decode. */
  function AxiosData(text: string, decoded: Option<Json>): Json
  {
    if decoded.Some? then decoded.value else JStr(text)
  }

  /** axios itself rejects a status outside 200-299; the code rejects any
      other status than 200; a property read on a `null` body raises too. */
  function AskOllama(outcome: HttpOutcome): Json
  {
    match outcome
    case NetFail(_) => JStr(ErrorReply)
    case Received(status, text, decoded) =>
      if status != 200 then JStr(ErrorReply)
      else
        match GetProp(AxiosData(text, decoded), "response")
        case Failure(_) => JStr(ErrorReply)
        case Success(response) => if Nullish(response) then JStr(NoResponse) else response.value
  }

  /** Every failure, including a 2xx status other than 200, gives the apology. */
  lemma ErrorsBecomeApology(outcome: HttpOutcome)
    ensures outcome.NetFail? ==> AskOllama(outcome) == JStr(ErrorReply)
    ensures outcome.Received? && outcome.status != 200 ==> AskOllama(outcome) == JStr(ErrorReply)
    ensures outcome.Received? && outcome.decoded == Some(JNull) ==> AskOllama(outcome) == JStr(ErrorReply)
  {
  }

  /** A status-200 reply with a non-null `response` yields that response,
      one without yields the fixed notice; every other reply the apology. */
  lemma {:induction false} AnswerCases(outcome: HttpOutcome)
    ensures var r := AskOllama(outcome);
      if outcome.Received? && outcome.status == 200 && AxiosData(outcome.text, outcome.decoded) != JNull then
        var data := AxiosData(outcome.text, outcome.decoded);
        if data.JObj? && "response" in data.fields && data.fields["response"] != JNull
        then r == data.fields["response"]
        else r == JStr(NoResponse)
      else r == JStr(ErrorReply)
  {
  }
}
