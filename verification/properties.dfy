/** What the `/search-flights` handler promises, stated over all inputs. */
module Properties {
  import opened Wrappers
  import opened Json
  import opened Http
  import opened Backend
  import Text
  import Dates

  /** The five names the flight search query string carries. */
  const QueryNames: set<string> := {"origin", "destination", "date", "adults", "currency"}

  predicate NoSearchCall(o: Outcome) {
    forall i :: 0 <= i < |o.calls| ==> !o.calls[i].Search?
  }

  /** After resolution the handler makes the search call exactly when
      both codes are true values and the date parses. */
  lemma DispatchSearches(origin: Value, destination: Value, date: string, calls: seq<Call>, search: Query -> Response)
    requires |calls| <= 2 && forall i :: 0 <= i < |calls| ==> calls[i].Lookup?
    ensures var o := Dispatch(origin, destination, date, calls, search);
      if Truthy(origin) && Truthy(destination) && Dates.DateOk(date) then
        var q := BuildQuery(origin, destination, date);
        o.calls == calls + [Search(q)] && o.reply == ClassifySearch(search(q))
      else
        o.calls == calls && NoSearchCall(o)
  {
  }

  /** The calls the handler makes for non-blank stripped arguments: an
      exception resolving the origin (a missing `iata` key, a malformed
      body, no response) gives the 500 reply before the destination is
      looked up; one resolving the destination gives the 500 reply before
      the codes are checked. */
  lemma ResolveCalls(cityFrom: string, cityTo: string, date: string, originAnswer: Response, destinationAnswer: Response, search: Query -> Response)
    ensures var o := Resolve(cityFrom, cityTo, date, originAnswer, destinationAnswer, search);
      var (origin, originCalls) := ResolveCity(cityFrom, originAnswer);
      var (destination, destinationCalls) := ResolveCity(cityTo, destinationAnswer);
      if origin.Raised? then
        o.reply == ErrorReply(500, Str(InternalErrorMessage)) && o.calls == originCalls && NoSearchCall(o)
      else if destination.Raised? then
        o.reply == ErrorReply(500, Str(InternalErrorMessage))
        && o.calls == originCalls + destinationCalls && NoSearchCall(o)
      else
        o == Dispatch(origin.value, destination.value, date, originCalls + destinationCalls, search)
  {
  }

  /** The missing-argument reply, with no outbound call, is given exactly
      when one of the stripped arguments is empty. */
  lemma BlankRejected(cityFrom: string, cityTo: string, date: string, originAnswer: Response, destinationAnswer: Response, search: Query -> Response)
    ensures var o := Handle(cityFrom, cityTo, date, originAnswer, destinationAnswer, search);
      (o.reply == ErrorReply(400, Str(MissingParamsMessage)) && o.calls == [])
      <==> (cityFrom == "" || cityTo == "" || date == "")
  {
  }

  /** An argument is blank when it is absent or whitespace only. */
  lemma {:induction false} BlankArgumentRejected(args: map<string, string>, originAnswer: Response, destinationAnswer: Response, search: Query -> Response)
    ensures var o := SearchFlights(args, originAnswer, destinationAnswer, search);
      (o.reply == ErrorReply(400, Str(MissingParamsMessage)) && o.calls == [])
      <==> (Text.AllSpace(Arg(args, "origin")) || Text.AllSpace(Arg(args, "destination")) || Text.AllSpace(Arg(args, "date")))
  {
    var cityFrom, cityTo, date := Text.Strip(Arg(args, "origin")), Text.Strip(Arg(args, "destination")), Text.Strip(Arg(args, "date"));
    Text.StripEmptyIffAllSpace(Arg(args, "origin"));
    Text.StripEmptyIffAllSpace(Arg(args, "destination"));
    Text.StripEmptyIffAllSpace(Arg(args, "date"));
    BlankRejected(cityFrom, cityTo, date, originAnswer, destinationAnswer, search);
  }

  /** A (stripped) input of at most three characters is never sent to the
      auto-complete endpoint; a longer one is looked up, origin before
      destination. */
  lemma OnlyLongNamesLookedUp(cityFrom: string, cityTo: string, date: string, originAnswer: Response, destinationAnswer: Response, search: Query -> Response)
    requires cityFrom != "" && cityTo != "" && date != ""
    ensures var o := Handle(cityFrom, cityTo, date, originAnswer, destinationAnswer, search);
      && (forall i :: 0 <= i < |o.calls| && o.calls[i].Lookup? ==>
            (o.calls[i].city == cityFrom && |cityFrom| > 3) || (o.calls[i].city == cityTo && |cityTo| > 3))
      && (|cityFrom| > 3 ==> o.calls != [] && o.calls[0] == Lookup(cityFrom))
      && (|cityTo| > 3 && (|cityFrom| <= 3 || GetIataCode(originAnswer).Returned?) ==>
            Lookup(cityTo) in o.calls)
  {
    ResolveCalls(cityFrom, cityTo, date, originAnswer, destinationAnswer, search);
    var (origin, originCalls) := ResolveCity(cityFrom, originAnswer);
    var (destination, destinationCalls) := ResolveCity(cityTo, destinationAnswer);
    if origin.Returned? && destination.Returned? {
      DispatchSearches(origin.value, destination.value, date, originCalls + destinationCalls, search);
    }
  }

  /** The search query carries a short input upper-cased and, for a
      longer one, the auto-complete lookup's answer. */
  lemma SearchUsesResolvedCodes(cityFrom: string, cityTo: string, date: string, originAnswer: Response, destinationAnswer: Response, search: Query -> Response)
    ensures var o := Handle(cityFrom, cityTo, date, originAnswer, destinationAnswer, search);
      forall i :: 0 <= i < |o.calls| && o.calls[i].Search? ==>
        && o.calls[i].query["origin"] == (if |cityFrom| > 3 then GetIataCode(originAnswer).value else Str(Text.Upper(cityFrom)))
        && o.calls[i].query["destination"] == (if |cityTo| > 3 then GetIataCode(destinationAnswer).value else Str(Text.Upper(cityTo)))
  {
    if cityFrom != "" && cityTo != "" && date != "" {
      ResolveCalls(cityFrom, cityTo, date, originAnswer, destinationAnswer, search);
      var (origin, originCalls) := ResolveCity(cityFrom, originAnswer);
      var (destination, destinationCalls) := ResolveCity(cityTo, destinationAnswer);
      if origin.Returned? && destination.Returned? {
        DispatchSearches(origin.value, destination.value, date, originCalls + destinationCalls, search);
      }
    }
  }

  /** Only the first auto-complete candidate matters: the rest of the list is never looked at. */
  lemma ResolverFirstWins(first: Value, rest: seq<Value>, rest': seq<Value>)
    ensures GetIataCode(Response(200, Parsed(Arr([first] + rest))))
         == GetIataCode(Response(200, Parsed(Arr([first] + rest'))))
    ensures first.Obj? && "iata" in first.fields ==>
      GetIataCode(Response(200, Parsed(Arr([first] + rest)))) == Returned(first.fields["iata"])
  {
  }

  /** The candidates `[{"iata": "JFK"}, {"iata": "LGA"}]` resolve to `JFK`;
      an empty list, a dictionary body and an error status resolve to `None`. */
  lemma ResolverExamples(status: int, fields: map<string, Value>)
    requires status != 200
    ensures GetIataCode(Response(200, Parsed(Arr([Obj(map["iata" := Str("JFK")]), Obj(map["iata" := Str("LGA")])]))))
         == Returned(Str("JFK"))
    ensures GetIataCode(Response(200, Parsed(Arr([])))) == Returned(Null)
    ensures GetIataCode(Response(200, Parsed(Obj(fields)))) == Returned(Null)
    ensures GetIataCode(Response(status, Malformed)) == Returned(Null)
    ensures GetIataCode(Response(200, Malformed)).Raised?
    ensures GetIataCode(Response(200, Parsed(Arr([Obj(map["name" := Str("JFK")])])))).Raised?
  {
  }

  /** An exception while resolving the origin ends the request with the
      generic 500 reply before the destination is looked up. */
  lemma OriginLookupFailureStops(cityFrom: string, cityTo: string, date: string, originAnswer: Response, destinationAnswer: Response, search: Query -> Response)
    requires cityFrom != "" && cityTo != "" && date != ""
    requires |cityFrom| > 3 && GetIataCode(originAnswer).Raised?
    ensures Handle(cityFrom, cityTo, date, originAnswer, destinationAnswer, search)
         == Outcome(ErrorReply(500, Str(InternalErrorMessage)), [Lookup(cityFrom)])
  {
  }

  /** An exception while resolving the destination, after the origin
      resolved, ends the request with the generic 500 reply and no search.
      The two lookups are separate requests, so this holds even when both
      sides name the same city and the origin's request succeeded. */
  lemma DestinationLookupFailureStops(cityFrom: string, cityTo: string, date: string, originAnswer: Response, destinationAnswer: Response, search: Query -> Response)
    requires cityFrom != "" && cityTo != "" && date != ""
    requires |cityFrom| <= 3 || GetIataCode(originAnswer).Returned?
    requires |cityTo| > 3 && GetIataCode(destinationAnswer).Raised?
    ensures Handle(cityFrom, cityTo, date, originAnswer, destinationAnswer, search)
         == Outcome(ErrorReply(500, Str(InternalErrorMessage)),
                    (if |cityFrom| > 3 then [Lookup(cityFrom)] else []) + [Lookup(cityTo)])
  {
  }

  /** A side that resolves to a false value (`None`, `""`, ...) gets the
      400 reply for undetermined codes and no search, whatever the date:
      the codes are checked before the date is parsed. */
  lemma ResolutionCheckedBeforeDate(cityFrom: string, cityTo: string, date: string, originAnswer: Response, destinationAnswer: Response, search: Query -> Response)
    requires cityFrom != "" && cityTo != "" && date != ""
    requires ResolveCity(cityFrom, originAnswer).0.Returned? && ResolveCity(cityTo, destinationAnswer).0.Returned?
    requires !Truthy(ResolveCity(cityFrom, originAnswer).0.value) || !Truthy(ResolveCity(cityTo, destinationAnswer).0.value)
    ensures var o := Handle(cityFrom, cityTo, date, originAnswer, destinationAnswer, search);
      o.reply == ErrorReply(400, Str(NoIataMessage)) && NoSearchCall(o)
  {
  }

  /** With both codes determined, a date strptime rejects gets the 400
      date-format reply and no search. */
  lemma InvalidDateRejected(cityFrom: string, cityTo: string, date: string, originAnswer: Response, destinationAnswer: Response, search: Query -> Response)
    requires cityFrom != "" && cityTo != "" && date != ""
    requires ResolveCity(cityFrom, originAnswer).0.Returned? && Truthy(ResolveCity(cityFrom, originAnswer).0.value)
    requires ResolveCity(cityTo, destinationAnswer).0.Returned? && Truthy(ResolveCity(cityTo, destinationAnswer).0.value)
    requires !Dates.DateOk(date)
    ensures var o := Handle(cityFrom, cityTo, date, originAnswer, destinationAnswer, search);
      o.reply == ErrorReply(400, Str(BadDateMessage)) && NoSearchCall(o)
  {
  }

  /** The flight search is requested exactly when every check passes. */
  lemma SearchMadeIffChecksPass(cityFrom: string, cityTo: string, date: string, originAnswer: Response, destinationAnswer: Response, search: Query -> Response)
    ensures var o := Handle(cityFrom, cityTo, date, originAnswer, destinationAnswer, search);
      var origin, destination := ResolveCity(cityFrom, originAnswer).0, ResolveCity(cityTo, destinationAnswer).0;
      !NoSearchCall(o) <==>
        && cityFrom != "" && cityTo != "" && date != ""
        && origin.Returned? && Truthy(origin.value)
        && destination.Returned? && Truthy(destination.value)
        && Dates.DateOk(date)
  {
    if cityFrom != "" && cityTo != "" && date != "" {
      ResolveCalls(cityFrom, cityTo, date, originAnswer, destinationAnswer, search);
      var (origin, originCalls) := ResolveCity(cityFrom, originAnswer);
      var (destination, destinationCalls) := ResolveCity(cityTo, destinationAnswer);
      if origin.Returned? && destination.Returned? {
        assert Handle(cityFrom, cityTo, date, originAnswer, destinationAnswer, search)
            == Dispatch(origin.value, destination.value, date, originCalls + destinationCalls, search);
        DispatchSearches(origin.value, destination.value, date, originCalls + destinationCalls, search);
        var o := Handle(cityFrom, cityTo, date, originAnswer, destinationAnswer, search);
        if Truthy(origin.value) && Truthy(destination.value) && Dates.DateOk(date) {
          assert o.calls[|o.calls| - 1].Search?;
        }
      }
    }
  }

  /** A search call is the last call, and its response decides the reply. */
  lemma SearchDecidesReply(cityFrom: string, cityTo: string, date: string, originAnswer: Response, destinationAnswer: Response, search: Query -> Response)
    ensures var o := Handle(cityFrom, cityTo, date, originAnswer, destinationAnswer, search);
      !NoSearchCall(o) ==>
        o.calls[|o.calls| - 1] == Search(BuildQuery(ResolveCity(cityFrom, originAnswer).0.value, ResolveCity(cityTo, destinationAnswer).0.value, date))
        && o.reply == ClassifySearch(search(o.calls[|o.calls| - 1].query))
  {
    if cityFrom != "" && cityTo != "" && date != "" {
      ResolveCalls(cityFrom, cityTo, date, originAnswer, destinationAnswer, search);
      var (origin, originCalls) := ResolveCity(cityFrom, originAnswer);
      var (destination, destinationCalls) := ResolveCity(cityTo, destinationAnswer);
      if origin.Returned? && destination.Returned? {
        assert Handle(cityFrom, cityTo, date, originAnswer, destinationAnswer, search)
            == Dispatch(origin.value, destination.value, date, originCalls + destinationCalls, search);
        DispatchSearches(origin.value, destination.value, date, originCalls + destinationCalls, search);
      }
    }
  }

  /** The search query holds exactly the resolved origin and destination,
      the stripped date (which strptime accepts), `adults=1` and
      `currency=USD`; both codes are true values. */
  lemma QueryContents(cityFrom: string, cityTo: string, date: string, originAnswer: Response, destinationAnswer: Response, search: Query -> Response)
    ensures var o := Handle(cityFrom, cityTo, date, originAnswer, destinationAnswer, search);
      forall i :: 0 <= i < |o.calls| && o.calls[i].Search? ==>
        var q := o.calls[i].query;
        && q.Keys == QueryNames
        && q["origin"] == ResolveCity(cityFrom, originAnswer).0.value && Truthy(q["origin"])
        && q["destination"] == ResolveCity(cityTo, destinationAnswer).0.value && Truthy(q["destination"])
        && q["date"] == Str(date) && Dates.DateOk(date)
        && q["adults"] == Str("1") && q["currency"] == Str("USD")
  {
    if cityFrom != "" && cityTo != "" && date != "" {
      ResolveCalls(cityFrom, cityTo, date, originAnswer, destinationAnswer, search);
      var (origin, originCalls) := ResolveCity(cityFrom, originAnswer);
      var (destination, destinationCalls) := ResolveCity(cityTo, destinationAnswer);
      if origin.Returned? && destination.Returned? {
        assert Handle(cityFrom, cityTo, date, originAnswer, destinationAnswer, search)
            == Dispatch(origin.value, destination.value, date, originCalls + destinationCalls, search);
        DispatchSearches(origin.value, destination.value, date, originCalls + destinationCalls, search);
      }
    }
  }

  /** Status 429 gives the rate-limit reply whatever the body, even one
      that is not JSON, and no other upstream response gives status 429. */
  lemma RateLimitCheckedFirst(body: Body, response: Response)
    ensures ClassifySearch(Response(429, body)) == ErrorReply(429, Str(RateLimitMessage))
    ensures ClassifySearch(response).status == 429 <==> response.Response? && response.status == 429
  {
  }

  /** An ok response with any decoded body: where `"flights" in data`
      holds it is passed through unchanged with status 200, where it is
      false the reply is the 500 API-data error, and where the test
      raises the reply is the 500 internal error. */
  lemma OkResponseMapping(status: int, v: Value)
    requires IsOk(status)
    ensures In("flights", v) == Returned(true) ==> ClassifySearch(Response(status, Parsed(v))) == Reply(200, v)
    ensures In("flights", v) == Returned(false) ==> ClassifySearch(Response(status, Parsed(v))) == ErrorReply(500, Str(BadApiDataMessage))
    ensures In("flights", v).Raised? ==> ClassifySearch(Response(status, Parsed(v))) == ErrorReply(500, Str(InternalErrorMessage))
    ensures v.Obj? ==> ("flights" in v.fields <==> ClassifySearch(Response(status, Parsed(v))) == Reply(200, v))
  {
  }

  /** A non-ok response other than 429 with an object body keeps its
      status and reports the body's `message`, or the generic API-error
      text when there is none. */
  lemma ErrorResponseForwarded(status: int, fields: map<string, Value>)
    requires !IsOk(status) && status != 429
    ensures "message" in fields ==> ClassifySearch(Response(status, Parsed(Obj(fields)))) == ErrorReply(status, fields["message"])
    ensures "message" !in fields ==> ClassifySearch(Response(status, Parsed(Obj(fields)))) == ErrorReply(status, Str(ApiErrorMessage))
  {
  }

  /** What escapes into the generic handler: no response, a body that is
      not JSON, an error body that is not an object, an ok body on which
      `in` raises. */
  lemma ExceptionsGiveInternalError(status: int, v: Value)
    requires status != 429
    ensures ClassifySearch(NoResponse) == ErrorReply(500, Str(InternalErrorMessage))
    ensures ClassifySearch(Response(status, Malformed)) == ErrorReply(500, Str(InternalErrorMessage))
    ensures !IsOk(status) && !v.Obj? ==> ClassifySearch(Response(status, Parsed(v))) == ErrorReply(500, Str(InternalErrorMessage))
    ensures IsOk(status) && (v.Null? || v.Bool? || v.Int?) ==> ClassifySearch(Response(status, Parsed(v))) == ErrorReply(500, Str(InternalErrorMessage))
  {
  }
}
