/** The outcome of one HTTP exchange, supplied to the model as an input in
    place of `fetch` or `axios`. */
module Transport {
  import opened Wrappers
  import opened JsonValues

  /** Either no response arrived (connection refused, DNS failure, timeout
      through an abort signal), or a response with its status, its body as
      text and the result of decoding that body as JSON (None when the body
      is not valid JSON). */
  datatype HttpOutcome =
    | NetFail(reason: string)
    | Received(status: nat, text: string, decoded: Option<Json>)

  /** `response.ok`: a status in the range 200-299. */
  predicate IsOk(status: nat)
  {
    200 <= status <= 299
  }
}
