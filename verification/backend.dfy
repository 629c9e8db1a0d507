/** The `/search-flights` request handler and its helper `get_iata_code`.
    The outbound HTTP calls are parameters: `originAnswer` and
    `destinationAnswer` are the responses to the two airport auto-complete
    requests (each used only when that side is looked up, so the two
    requests may be answered differently even for the same city), and
    `search` answers the one-way flight list request for a query string.
    The result records the reply the handler returns together with the
    outbound calls it made, in order. */
module Backend {
  import opened Wrappers
  import opened Json
  import opened Http
  import Text
  import Dates

  const MissingParamsMessage: string := "Необходимо указать origin, destination и date"
  const NoIataMessage: string := "Не удалось определить IATA-коды для городов"
  const BadDateMessage: string := "Неверный формат даты. Используйте YYYY-MM-DD (например, 2023-12-01)."
  const RateLimitMessage: string := "Превышен лимит запросов. Попробуйте позже."
  const BadApiDataMessage: string := "Ошибка в данных API"
  const ApiErrorMessage: string := "Ошибка API"
  const InternalErrorMessage: string := "Внутренняя ошибка сервера"

  /** The query string of the flight search request: parameter name to value. */
  type Query = map<string, Value>

  /** One outbound HTTP request. */
  datatype Call =
    | Lookup(city: string)  // GET airports/auto-complete?query=city
    | Search(query: Query)  // GET flights/one-way/list?<query>

  /** A JSON reply with its HTTP status code. */
  datatype Reply = Reply(status: int, body: Value)

  datatype Outcome = Outcome(reply: Reply, calls: seq<Call>)

  /** `jsonify({"error": message}), status` */
  function ErrorReply(status: int, message: Value): Reply {
    Reply(status, Obj(map["error" := message]))
  }

  /** A body of the form `{"error": message}`. */
  predicate IsErrorBody(v: Value) {
    v.Obj? && v.fields.Keys == {"error"}
  }

  /** `request.args.get(name, "")` */
  function Arg(args: map<string, string>, name: string): string {
    if name in args then args[name] else ""
  }

  /** `get_iata_code`, given the auto-complete response for the city: the
      `iata` field of the first candidate when the status is 200 and the
      body is a non-empty list; `None` for any other status and for any
      other body.  Decoding a malformed body, a first candidate without an
      `iata` key or one that is not an object raises, as does a request
      that got no response. */
  function GetIataCode(response: Response): (r: Eval<Value>)
    ensures response.NoResponse? ==> r.Raised?
    ensures response.Response? && response.status != 200 ==> r == Returned(Null)
    ensures response.Response? && response.status == 200 ==>
      match response.body
      case Malformed => r.Raised?
      case Parsed(v) =>
        if v.Arr? && v.items != [] then
          (r.Returned? <==> v.items[0].Obj? && "iata" in v.items[0].fields)
          && (r.Returned? ==> r.value == v.items[0].fields["iata"])
        else
          r == Returned(Null)
  {
    match response
    case NoResponse => Raised
    case Response(status, body) =>
      if status == 200 then
        match DecodeBody(body)
        case Raised => Raised
        case Returned(data) =>
          if Truthy(data) && data.Arr? && |data.items| > 0 then
            Subscript(data.items[0], "iata")
          else
            Returned(Null)
      else
        Returned(Null)
  }

  /** Line 71/72 of the handler for one side: a (stripped) input longer
      than three characters is looked up, `answer` being the response to
      that request; a shorter one is taken as an airport code and
      upper-cased. */
  function ResolveCity(city: string, answer: Response): (r: (Eval<Value>, seq<Call>))
    ensures r.1 == (if |city| > 3 then [Lookup(city)] else [])
  {
    if |city| > 3 then (GetIataCode(answer), [Lookup(city)])
    else (Returned(Str(Text.Upper(city))), [])
  }

  /** The query string of the flight search request. */
  function BuildQuery(origin: Value, destination: Value, date: string): (q: Query)
    ensures q.Keys == {"origin", "destination", "date", "adults", "currency"}
    ensures q["origin"] == origin && q["destination"] == destination && q["date"] == Str(date)
    ensures q["adults"] == Str("1") && q["currency"] == Str("USD")
  {
    map["origin" := origin, "destination" := destination, "date" := Str(date),
        "adults" := Str("1"), "currency" := Str("USD")]
  }

  /** The reply the handler derives from the flight search response:
      429 first, without decoding the body; then an ok response passes
      its body through when it contains `flights`; a non-ok response
      forwards its status and the body's `message`.  Every exception
      becomes the generic 500 reply. */
  function ClassifySearch(response: Response): (reply: Reply)
    ensures reply.status == 200 || 400 <= reply.status < 600
    ensures reply.status == 200 ==>
      response.Response? && IsOk(response.status) && response.body.Parsed? && reply.body == response.body.value
    ensures reply.status != 200 ==> IsErrorBody(reply.body)
    ensures reply.status == 429 <==> response.Response? && response.status == 429
  {
    match response
    case NoResponse => ErrorReply(500, Str(InternalErrorMessage))
    case Response(status, body) =>
      if status == 429 then
        ErrorReply(429, Str(RateLimitMessage))
      else if IsOk(status) then
        match DecodeBody(body)
        case Raised => ErrorReply(500, Str(InternalErrorMessage))
        case Returned(data) =>
          match In("flights", data)
          case Raised => ErrorReply(500, Str(InternalErrorMessage))
          case Returned(true) => Reply(200, data)
          case Returned(false) => ErrorReply(500, Str(BadApiDataMessage))
      else
        match DecodeBody(body)
        case Raised => ErrorReply(500, Str(InternalErrorMessage))
        case Returned(errorData) =>
          match Get(errorData, "message", Str(ApiErrorMessage))
          case Raised => ErrorReply(500, Str(InternalErrorMessage))
          case Returned(message) => ErrorReply(status, message)
  }

  /** The properties every outcome of the handler has, given the reply
      function of the flight search endpoint. */
  predicate WellFormed(o: Outcome, search: Query -> Response) {
    && (o.reply.status == 200 || 400 <= o.reply.status < 600)
    && (o.reply.status != 200 ==> IsErrorBody(o.reply.body))
    && |o.calls| <= 3
    && (forall i :: 0 <= i < |o.calls| - 1 ==> o.calls[i].Lookup?)
    && (o.reply.status == 200 ==>
         o.calls != [] && o.calls[|o.calls| - 1].Search?
         && var r := search(o.calls[|o.calls| - 1].query);
            r.Response? && IsOk(r.status) && r.body.Parsed? && o.reply.body == r.body.value)
  }

  /** Lines 74-114 of the handler, once both sides are resolved without
      an exception and `calls` (at most the two lookups) have been made. */
  function Dispatch(origin: Value, destination: Value, date: string, calls: seq<Call>, search: Query -> Response): (o: Outcome)
    requires |calls| <= 2 && forall i :: 0 <= i < |calls| ==> calls[i].Lookup?
    ensures WellFormed(o, search)
  {
    if !Truthy(origin) || !Truthy(destination) then
      Outcome(ErrorReply(400, Str(NoIataMessage)), calls)
    else if !Dates.DateOk(date) then
      Outcome(ErrorReply(400, Str(BadDateMessage)), calls)
    else
      var query := BuildQuery(origin, destination, date);
      var o := Outcome(ClassifySearch(search(query)), calls + [Search(query)]);
      assert o.calls[|o.calls| - 1] == Search(query);
      o
  }

  /** The `/search-flights` handler, for the query arguments `args`. */
  function SearchFlights(args: map<string, string>, originAnswer: Response, destinationAnswer: Response, search: Query -> Response): (o: Outcome)
    ensures WellFormed(o, search)
  {
    Handle(Text.Strip(Arg(args, "origin")), Text.Strip(Arg(args, "destination")), Text.Strip(Arg(args, "date")),
           originAnswer, destinationAnswer, search)
  }

  /** Lines 67-114 of the handler, for the stripped arguments. */
  function Handle(cityFrom: string, cityTo: string, date: string, originAnswer: Response, destinationAnswer: Response, search: Query -> Response): (o: Outcome)
    ensures WellFormed(o, search)
  {
    if cityFrom == "" || cityTo == "" || date == "" then
      Outcome(ErrorReply(400, Str(MissingParamsMessage)), [])
    else
      Resolve(cityFrom, cityTo, date, originAnswer, destinationAnswer, search)
  }

  /** Lines 71-114 of the handler, for non-blank stripped inputs. */
  function Resolve(cityFrom: string, cityTo: string, date: string, originAnswer: Response, destinationAnswer: Response, search: Query -> Response): (o: Outcome)
    ensures WellFormed(o, search)
  {
    var (origin, originCalls) := ResolveCity(cityFrom, originAnswer);
    if origin.Raised? then
      Outcome(ErrorReply(500, Str(InternalErrorMessage)), originCalls)
    else
      var (destination, destinationCalls) := ResolveCity(cityTo, destinationAnswer);
      var calls := originCalls + destinationCalls;
      if destination.Raised? then
        Outcome(ErrorReply(500, Str(InternalErrorMessage)), calls)
      else
        Dispatch(origin.value, destination.value, date, calls, search)
  }
}
