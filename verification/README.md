# Flight-search request handler

A Dafny model of the request-decision logic of the travel helper's
`/search-flights` endpoint (`backend.py`): a Flask handler that takes
`origin`, `destination` and `date` query arguments, turns city names into
IATA airport codes through the Skyscanner auto-complete endpoint
(`get_iata_code`), validates the date with `datetime.strptime`, sends one
flight search to Skyscanner and maps the upstream response to a JSON reply.

The handler is modelled as one pure function, `Backend.SearchFlights`,
whose network calls are parameters: `originAnswer` and `destinationAnswer`
are the responses to the two auto-complete requests (each is used only when
that side is looked up, and the two may differ even when both sides name
the same city, since they are separate requests), and `search` gives the
flight-list response for a query string. Its result is the reply (status
and JSON body) together with the sequence of outbound calls the handler
made, so that "no search call is made" is a statement about the result.
Python exceptions are modelled by `Wrappers.Eval` (`Returned(v)` or
`Raised`). The `ValueError` of `strptime` is caught by the handler's inner
`try` and gives the 400 date-format reply; every other exception ends in
the generic 500 reply of the outer `except Exception` clause.

Files:

- `wrappers.dfy` — `Option` and `Eval`.
- `text.dfy` — `str.strip`, `str.upper` and substring `in`, for ASCII.
- `json.dfy` — decoded JSON values as Python objects, with truthiness,
  `in`, `[key]` and `.get`.
- `http.dfy` — a `requests` response: status, body (JSON or malformed),
  `response.ok`, `response.json()`.
- `dates.dfy` — `datetime.strptime(s, "%Y-%m-%d")` as a validity test.
- `backend.dfy` — `get_iata_code`, the handler and its stages.
- `properties.dfy` — the properties the handler promises, over all inputs.

Modelling choices:

- `get_iata_code` returns the Python value of `data[0]["iata"]` (any JSON
  value) or `None` (the JSON `null`), and can raise; the handler's
  `not origin` test is Python truthiness of that value.
- A response body is either decoded JSON or malformed; `response.json()`
  raises on a malformed one, and a request that got no response at all
  raises in `requests.get`.
- `response.ok` is false exactly for statuses 400..599, as in `requests`.
- `"flights" in data` is modelled for every body: dictionary key, list
  element equal to the string, substring of a string, `TypeError` on
  `null`, booleans and numbers.
- The date check is a concrete model of `strptime` for `%Y-%m-%d` on ASCII
  input: the regular expression `_strptime` compiles (alternatives tried in
  order, with the check that no input is left over), the rejection of year
  0, and the calendar check with leap years. It therefore accepts
  `2023-1-5` and `2023-12- 1` and rejects `2023-02-29`.
- The handler resolves both cities before it parses the date, so a
  resolution failure is reported even when the date is also wrong. A 200
  auto-complete response whose body is unparsable or whose first candidate
  lacks an `iata` key ends in the 500 reply, not in the 400 "could not
  determine IATA codes" reply; an auto-complete response with any other
  status is never decoded and gives `None`, hence the 400 reply, unless
  the other side's lookup raises, which gives the 500 reply. The model
  keeps this order.
- Upstream 401 is forwarded like any other error status, and any ok body
  holding a `flights` key is passed through, even one whose `flights` is
  empty.

## Model

| member | source | states |
|---|---|---|
| `Text.Strip` | backend.py:62-64 | the stripped argument is the slice of the raw one between a whitespace prefix and a whitespace suffix, and neither starts nor ends with whitespace |
| `Text.StripEmptyIffAllSpace` | backend.py:62-67 | an argument is blank after stripping exactly when it is whitespace only (or absent) |
| `Text.StripIdempotent` | backend.py:62-64 | stripping an already stripped argument changes nothing |
| `Text.Upper` | backend.py:71-72 | upper-casing keeps the length, leaves no small ASCII letter and agrees with the input up to case |
| `Text.UpperIdempotent` | backend.py:71-72 | an upper-cased code upper-cases to itself |
| `Text.Contains` | backend.py:105 | `needle in hay` on strings is true exactly when the needle occurs at some index of the haystack |
| `Json.In` | backend.py:105 | `key in v` is key membership for a dict, element membership of the string for a list, substring for a string, and raises for null, booleans and numbers |
| `Json.DictOperationsAgree` | backend.py:105-112 | on a dict, `key in v` holds exactly when `v[key]` does not raise, and then `v.get(key, d)` is `v[key]`, otherwise `d`; on anything else `v[key]` and `v.get(key, d)` raise |
| `Dates.ParseDate` | backend.py:78-81 | every string strptime accepts denotes a valid calendar date with a year in 1..9999 |
| `Dates.FirstMatch` | backend.py:79 | a regular-expression match has a month in 1..12, a day in 1..31 and ends within the string |
| `Dates.FirstMatchIsFirstContinued` | backend.py:79 | the match is the first month alternative followed by `-` and a matching day, with the first matching day alternative; there is no match exactly when no month alternative can be continued |
| `Dates.CanonicalMatch` | backend.py:78-81 | after a zero-padded `YYYY-MM-DD` prefix the month and day groups match all ten characters, yielding month and day, exactly when the month is 1..12 and the day 1..31; otherwise there is no match or it stops early |
| `Dates.FormatParseRoundTrip` | backend.py:78-81 | among all zero-padded `YYYY-MM-DD` spellings (any two-digit month and day, including `00`, `13` and `32`) exactly the valid calendar dates are accepted, and each parses back to the date it spells |
| `Dates.OutOfRangeExamples` | backend.py:78-81 | `2023-13-01`, `2023-00-10`, `2023-05-00` and `2023-05-32` are rejected |
| `Dates.TrailingDataRejected` | backend.py:78-81 | a zero-padded spelling followed by any further characters is rejected: as unconverted data when month and day are in range, otherwise because the match fails or stops before the end |
| `Dates.UnpaddedExamples` | backend.py:79 | unpadded months and days and a space-padded day are accepted |
| `Dates.LeapDayExamples` | backend.py:79 | 29 February is accepted in 2024 and rejected in 2023 |
| `Dates.CenturyLeapDayExamples` | backend.py:79 | 29 February is rejected in 1900 and accepted in 2000 |
| `Dates.YearZeroRejected` | backend.py:79 | year 0 is rejected |
| `Dates.RejectedExamples` | backend.py:79-81 | `2023-13-40` and `Dec 1` are rejected |
| `Dates.LeftoverRejectedExamples` | backend.py:79-81 | a third day digit and a trailing blank are rejected |
| `Backend.GetIataCode` | backend.py:35-48 | the resolver yields the first candidate's `iata` for a 200 response with a non-empty list body, `None` for any other status and any other body, and raises on a malformed body, a first candidate without `iata`, or no response |
| `Backend.ResolveCity` | backend.py:71-72 | a stripped input longer than three characters is sent to the auto-complete endpoint once, a shorter one never |
| `Backend.BuildQuery` | backend.py:87-93 | the query string has exactly the keys origin, destination, date, adults and currency, with the resolved codes, the date, `1` and `USD` |
| `Backend.ClassifySearch` | backend.py:96-118 | the reply is 200 only for an ok response and then carries the decoded upstream body unchanged; every other reply is an `{"error": ...}` object; the reply is 429 exactly when the upstream status is 429 |
| `Backend.Dispatch` | backend.py:74-114 | after resolution every outcome is well formed: status 200 or 4xx/5xx, error bodies on failure, the search call last |
| `Backend.Resolve` | backend.py:71-118 | for non-blank arguments every outcome is well formed |
| `Backend.Handle` | backend.py:67-118 | for the stripped arguments every outcome is well formed |
| `Backend.SearchFlights` | backend.py:59-118 | at most three outbound calls, lookups before the search, status 200 or 400..599, a 200 reply is the search response's body unchanged, any other reply is an `{"error": ...}` object |
| `Properties.DispatchSearches` | backend.py:74-96 | after resolution the search call is made exactly when both codes are true values and the date parses, and its response decides the reply |
| `Properties.ResolveCalls` | backend.py:71-75 | an exception resolving the origin gives the 500 internal-error reply before the destination is looked up; one resolving the destination gives the 500 reply before the codes are checked |
| `Properties.BlankRejected` | backend.py:67-68 | the missing-argument 400 reply with no outbound call is given exactly when a stripped argument is empty |
| `Properties.BlankArgumentRejected` | backend.py:62-68 | the missing-argument 400 reply with no outbound call is given exactly when a raw argument is absent or whitespace only |
| `Properties.OnlyLongNamesLookedUp` | backend.py:71-72 | only inputs longer than three characters are sent to the auto-complete endpoint, the origin first |
| `Properties.SearchUsesResolvedCodes` | backend.py:71-93 | the search query carries a short input upper-cased and a longer one's lookup answer |
| `Properties.ResolverFirstWins` | backend.py:41-42 | the resolver's answer depends on the first candidate only |
| `Properties.ResolverExamples` | backend.py:39-48 | `[{"iata":"JFK"},{"iata":"LGA"}]` gives `JFK`; an empty list, a dict body or an error status give `None`; a malformed body or a candidate without `iata` raise |
| `Properties.OriginLookupFailureStops` | backend.py:71-72 | an exception in the origin lookup gives the 500 reply after that single call |
| `Properties.DestinationLookupFailureStops` | backend.py:71-75 | an exception in the destination lookup, after the origin resolved, gives the 500 reply with no search, even when both sides name the same city |
| `Properties.ResolutionCheckedBeforeDate` | backend.py:74-81 | an undetermined code gives the IATA 400 reply and no search, whatever the date |
| `Properties.InvalidDateRejected` | backend.py:78-81 | with both codes determined, a date strptime rejects gives the date-format 400 reply and no search |
| `Properties.SearchMadeIffChecksPass` | backend.py:67-96 | the flight search is requested exactly when every argument is non-blank, both codes resolve without an exception to true values and the date parses |
| `Properties.SearchDecidesReply` | backend.py:86-118 | a search call is the last call, carries the query built from the resolved codes and the date, and its response alone decides the reply |
| `Properties.QueryContents` | backend.py:87-93 | every search query holds exactly the resolved codes (both true values), the checked date, adults 1 and currency USD |
| `Properties.RateLimitCheckedFirst` | backend.py:99-101 | status 429 gives the rate-limit reply whatever the body, and only status 429 does |
| `Properties.OkResponseMapping` | backend.py:103-109 | for an ok status and any decoded body: if `"flights" in data` is true the body is passed through with 200, if false the reply is the 500 API-data error, if the test raises it is the 500 internal error; for an object body the pass-through happens exactly when it has a `flights` key |
| `Properties.ErrorResponseForwarded` | backend.py:110-114 | a non-ok, non-429 object body keeps its status and reports `message`, or the generic API-error text |
| `Properties.ExceptionsGiveInternalError` | backend.py:116-118 | no response, a malformed body, a non-object error body or an ok body that `in` cannot test give the 500 internal-error reply |

## Left out

- Environment loading, the API-key check and `exit(1)`, header
  construction, the Flask app and CORS setup, and the `__main__` block
  (backend.py:1-32, 120-121): process set-up with no bearing on a reply.
- The `/` and `/health` routes (backend.py:50-56): constant replies.
- `requests.get` itself and the request headers: the responses are inputs
  (`originAnswer`, `destinationAnswer`, `search`); the URL-encoding of query values is not modelled.
- All logging calls, including the one that writes the request headers to
  the log: logging does not change the reply.
- Text.Strip: whitespace is the ASCII part of `str.isspace`; Unicode
  whitespace such as U+00A0 is not stripped by the model.
- Text.Upper: only ASCII letters are upper-cased; Unicode case mapping
  (including mappings that change the length) is not modelled.
- Dates.ParseDate: digits are ASCII only, whereas Python's `\d` also
  matches other Unicode decimal digits.
- JSON numbers are integers; floating-point numbers are not modelled.
- Repeated query arguments: `request.args.get` returns the first value;
  the model takes one value per name.
