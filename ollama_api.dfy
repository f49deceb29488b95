/** `askOllama` of the offline assistant (offline-activity-assistant/api/ollama.ts):
    one POST to the generation endpoint; a non-2xx status is raised as an
    error naming the status; the answer is `data.answer ?? data.response ?? data`;
    every error is passed on to the caller unchanged. */
module OllamaApi {
  import opened Wrappers
  import opened JsonValues
  import opened Text
  import opened Transport

  /** What `askOllama` can raise. */
  datatype FetchError =
    | NetworkError(reason: string)  // `fetch` itself rejected
    | HttpError(message: string)    // raised by the code for a status outside 200-299
    | SyntaxError                   // `response.json()` on a body that is not JSON
    | TypeError                     // a property read on a `null` body

  function HttpErrorMessage(status: nat, text: string): string
  {
    "HTTP error " + NatToString(status) + ": " + text
  }

  /** `data.answer ?? data.response ?? data`. */
  function ExtractAnswer(data: Json): Result<Json, FetchError>
  {
    match GetProp(data, "answer")
    case Failure(_) => Failure(TypeError)
    case Success(answer) =>
      if !Nullish(answer) then Success(answer.value)
      else
        var response := GetProp(data, "response").value;
        if !Nullish(response) then Success(response.value) else Success(data)
  }

  function AskOllama(outcome: HttpOutcome): Result<Json, FetchError>
  {
    match outcome
    case NetFail(reason) => Failure(NetworkError(reason))
    case Received(status, text, decoded) =>
      if !IsOk(status) then Failure(HttpError(HttpErrorMessage(status, text)))
      else if decoded.None? then Failure(SyntaxError)
      else ExtractAnswer(decoded.value)
  }

  /** A status outside 200-299 raises an error whose message contains the status. */
  lemma StatusErrorNamesStatus(status: nat, text: string, decoded: Option<Json>)
    requires !IsOk(status)
    ensures var r := AskOllama(Received(status, text, decoded));
      r.Failure? && r.error.HttpError? && Contains(r.error.message, NatToString(status))
  {
    var m := HttpErrorMessage(status, text);
    assert m[11..11 + |NatToString(status)|] == NatToString(status);
    ContainsAt(m, NatToString(status), 11);
  }

  /** A failed request is passed on, not turned into an answer. */
  lemma FailuresPropagate(reason: string, status: nat, text: string)
    ensures AskOllama(NetFail(reason)) == Failure(NetworkError(reason))
    ensures AskOllama(Received(status, text, None)).Failure?
    ensures AskOllama(Received(status, text, Some(JNull))).Failure?
  {
  }

  /** A present, non-null `answer` wins, even the empty string. */
  lemma AnswerFieldFirst(status: nat, text: string, fields: map<string, Json>)
    requires IsOk(status) && "answer" in fields && fields["answer"] != JNull
    ensures AskOllama(Received(status, text, Some(JObj(fields)))) == Success(fields["answer"])
  {
  }

  /** Without a usable `answer`, a present, non-null `response` is returned. */
  lemma ResponseFieldSecond(status: nat, text: string, fields: map<string, Json>)
    requires IsOk(status) && Nullish(PyGetOpt(fields, "answer"))
    requires "response" in fields && fields["response"] != JNull
    ensures AskOllama(Received(status, text, Some(JObj(fields)))) == Success(fields["response"])
  {
  }

  /** With neither field usable, the decoded body itself is the answer. */
  lemma RawBodyLast(status: nat, text: string, data: Json)
    requires IsOk(status) && data != JNull
    requires data.JObj? ==> Nullish(PyGetOpt(data.fields, "answer")) && Nullish(PyGetOpt(data.fields, "response"))
    ensures AskOllama(Received(status, text, Some(data))) == Success(data)
  {
  }

  /** The request succeeds exactly when a 2xx response arrives whose body
      decodes to a value other than `null`. */
  lemma {:induction false} SuccessIff(outcome: HttpOutcome)
    ensures AskOllama(outcome).Success? <==>
      outcome.Received? && IsOk(outcome.status) && outcome.decoded.Some? && outcome.decoded.value != JNull
  {
  }

  /** The member of an object, if present. */
  function PyGetOpt(fields: map<string, Json>, key: string): Option<Json>
  {
    if key in fields then Some(fields[key]) else None
  }
}
