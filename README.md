# Flight search query builder

A Dafny model of how the flight search route of the Agile Data Science web
application (`ch07/web/report_flask.py`, route `/flights/search`) turns the
request's query-string parameters into an Elasticsearch query document:

- six optional filter parameters, `Carrier`, `FlightDate`, `Origin`, `Dest`,
  `TailNum` and `FlightNum`, read with `request.args.get`;
- a pagination offset `start` (`request.args.get('start') or 0`, then `int()`)
  and an `end` (`request.args.get('end') or RECORDS_PER_PAGE`, then `int()`);
- a query skeleton with an empty boolean `must` list, the fixed sort list
  (FlightDate, DepTime, Carrier, FlightNum ascending with `ignore_unmapped`,
  then `_score`), `from = start` and `size = RECORDS_PER_PAGE`;
- six conditional appends, one `match` clause per truthy criterion.

Files:

- `wrappers.dfy`: `Option` (Python's `None` or a value) and `Result` (a value or a raised error).
- `flight_search.dfy`: module `FlightSearch`.
  - The request parameters are a `map<string, string>` (`Args`).
  - `Truthy` is Python's truthiness of an optional string: `None` and `""` are false.
  - `Criteria`, `Clause`, `SortSpec` and `Query` are the route's data.
  - `BuildQuery` is a method that mirrors the six conditional appends on the query value.
  - `SearchQuery` is the whole query-construction block of the route.
  - Their specification is `Must`, a fold over the fixed field list `FIELD_ORDER`, together with `SearchQueryOf`.

Modelling choices:

- `int()` of a non-empty `start` or `end` string is a function parameter
  `parseInt: string -> Option<int>`, where `None` stands for the `ValueError` it
  raises.
- When the parameter is missing or empty, the route calls `int()` on the
  default instead (`int(0)`, `int(config.RECORDS_PER_PAGE)`). `int()` of an
  integer returns that same integer, so the model returns the default
  directly. This assumes the configured page size is an `int`.
- Nothing requires `start` to be non-negative: the route forwards whatever
  `int()` returns.
- `RECORDS_PER_PAGE` comes from the configuration module, which is not part of
  this model. It is the parameter `recordsPerPage`.
- The request parameters are a map, so the query cannot depend on the order
  in which they came. The lemmas show that the clause order is always the
  route's own order.

## Model

| member | source | states |
|---|---|---|
| FlightSearch.CriteriaOf | ch07/web/report_flask.py:127-132 | the criterion of each field is the request parameter of the same name, or None when it is missing |
| FlightSearch.Rank | ch07/web/report_flask.py:163-174 | each field has one position in the order Carrier, FlightDate, Origin, Dest, TailNum, FlightNum, and FIELD_ORDER holds that field there |
| FlightSearch.BuildQuery | ch07/web/report_flask.py:146-174 | starting from an empty must list and appending one match clause per truthy criterion gives the must list of the fold over the field list; the sort list is the fixed one; from is the given start; size is the configured page size |
| FlightSearch.SearchQuery | ch07/web/report_flask.py:126-174 | reading the criteria, start and end and then building the query gives SearchQueryOf: a ValueError when int() rejects start or end, otherwise a query with the fixed sort list and size equal to the page size |
| FlightSearch.MustUnfolded | ch07/web/report_flask.py:163-174 | the fold over the field list equals the six conditional appends taken in the route's order |
| FlightSearch.MustForMembership | ch07/web/report_flask.py:163-174 | a clause is produced for a list of fields exactly when its field is in the list, its criterion is present and non-empty, and its value is that criterion |
| FlightSearch.MustForLength | ch07/web/report_flask.py:163-174 | over distinct fields, the number of clauses equals the number of fields whose criterion is truthy |
| FlightSearch.MustForInOrder | ch07/web/report_flask.py:163-174 | over fields in the route's order, the clauses come in that order |
| FlightSearch.FieldOrderInOrder | ch07/web/report_flask.py:163-174 | the six tested fields are all the fields, each tested once, in rank order |
| FlightSearch.MustMatchesCriteria | ch07/web/report_flask.py:163-174 | a clause is in the must list exactly when it is a match on the criterion's own field with the user's value unchanged and non-empty |
| FlightSearch.MustCount | ch07/web/report_flask.py:163-174 | the must list has exactly as many clauses as there are truthy criteria |
| FlightSearch.MustInFieldOrder | ch07/web/report_flask.py:163-174 | clauses appear in the order Carrier, FlightDate, Origin, Dest, TailNum, FlightNum, and no field contributes two |
| FlightSearch.MustEmptyIffNoCriteria | ch07/web/report_flask.py:146-174 | the must list is empty (match all) if and only if every criterion is missing or the empty string |
| FlightSearch.MustFromArgs | ch07/web/report_flask.py:127-174 | for a request whose pagination parameters parse, a clause is in the query's must list exactly when its field's parameter is given with a non-empty value equal to the clause's value |
| FlightSearch.MustForSameTruthy | ch07/web/report_flask.py:163-174 | the must list depends on the criteria only through which are truthy and their values |
| FlightSearch.EmptyParamIsAbsent | ch07/web/report_flask.py:126-174 | for every parameter name, criteria and pagination alike, a parameter given as the empty string yields the same outcome as a missing one |
| FlightSearch.FromIsStart | ch07/web/report_flask.py:135-158 | from is the parsed start, and 0 when start is missing or empty |
| FlightSearch.MalformedPageParamFails | ch07/web/report_flask.py:135-138 | the request fails exactly when a non-empty start or end is not an integer, start being checked first |
| FlightSearch.SizeIgnoresEnd | ch07/web/report_flask.py:137-159 | any well-formed or empty end yields the same query as no end, whose size is the configured page size |
| FlightSearch.SortIsFixed | ch07/web/report_flask.py:151-157 | every query's sort list is FlightDate, DepTime, Carrier, FlightNum, each ascending with ignore_unmapped, then _score, whatever the criteria (BuildQuery's `ensures query.sort == FIXED_SORT` states it for each built query) |
| FlightSearch.CarrierAndDateExample | ch07/web/report_flask.py:126-174 | Carrier=AA and FlightDate=2015-01-01 alone give two match clauses on Carrier then FlightDate, the fixed sort, from 0 and the page size |

## Left out

- The MongoDB lookup routes and their template rendering (report_flask.py lines 19-120) are I/O with no logic of their own.
- The rendering of the search page (lines 181-193) is presentation only.
- `elastic.search(query)` (line 177) is a network call to the search engine; the model stops at the query document it is given.
- `search_helpers.strip_place`, `get_navigation_offsets` and `process_search` (lines 142-143, 178): `search_helpers` is not part of this model. The URL canonicalisation, navigation offsets and result normalisation are therefore not modelled, nor any error they might raise.
- The grammar Python's `int()` accepts (signs, whitespace, underscores, Unicode digits) is not modelled; `parseInt` stands for it.
- A parameter repeated in the query string: `request.args.get` returns its first value, and the map holds one value per name.
- Flask, Mongo and Elasticsearch client setup, `print request.args` and `app.run` (lines 12-17, 140, 195-196) are process plumbing.
