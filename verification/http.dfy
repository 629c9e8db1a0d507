/** The parts of a `requests` response the handler looks at. */
module Http {
  import opened Wrappers
  import opened Json

  /** The payload of a response, as `response.json()` sees it. */
  datatype Body = Parsed(value: Value) | Malformed

  /** The result of one `requests.get` call: a response, or no response
      at all because the call itself raised (connection failure and the like). */
  datatype Response = Response(status: int, body: Body) | NoResponse

  /** `response.ok`: false exactly for the client-error and server-error
      ranges 400..599, true for every other status code. */
  predicate IsOk(status: int) {
    !(400 <= status < 600)
  }

  /** `response.json()`: the decoded body, or a raised decoding error. */
  function DecodeBody(b: Body): (r: Eval<Value>)
    ensures r.Returned? <==> b.Parsed?
    ensures b.Parsed? ==> r.value == b.value
  {
    match b
    case Parsed(v) => Returned(v)
    case Malformed => Raised
  }
}
