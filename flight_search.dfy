/**
 * The Elasticsearch query that the flight search route builds from the
 * request's query-string parameters: one `match` clause per filter criterion
 * that is present, in a fixed field order, a fixed sort specification and a
 * `from`/`size` pagination window whose size is the configured page size.
 */
module FlightSearch {
  import opened Wrappers

  /** The request's query-string parameters: each name with its (first) value. */
  type Args = map<string, string>

  /** `request.args.get(key)`: the value of the parameter, or `None`. */
  function Arg(args: Args, key: string): Option<string>
  {
    if key in args then Some(args[key]) else None
  }

  /** Python truthiness of an optional string: `None` and `""` are false. */
  predicate Truthy(v: Option<string>)
  {
    v.Some? && v.value != ""
  }

  /** The six searchable fields; each is both a request parameter and a document field. */
  datatype Field = Carrier | FlightDate | Origin | Dest | TailNum | FlightNum
  {
    /** The name of the field, in the request and in the indexed documents. */
    function Name(): string
    {
      match this
      case Carrier => "Carrier"
      case FlightDate => "FlightDate"
      case Origin => "Origin"
      case Dest => "Dest"
      case TailNum => "TailNum"
      case FlightNum => "FlightNum"
    }
  }

  /** The order in which the route tests the criteria and appends their clauses. */
  const FIELD_ORDER: seq<Field> := [Carrier, FlightDate, Origin, Dest, TailNum, FlightNum]

  /** The position of a field in FIELD_ORDER. */
  function Rank(f: Field): (r: nat)
    ensures r < |FIELD_ORDER| && FIELD_ORDER[r] == f
  {
    match f
    case Carrier => 0
    case FlightDate => 1
    case Origin => 2
    case Dest => 3
    case TailNum => 4
    case FlightNum => 5
  }

  /** The six search criteria as read from the request, each possibly missing. */
  datatype Criteria = Criteria(
    carrier: Option<string>,
    flightDate: Option<string>,
    origin: Option<string>,
    dest: Option<string>,
    tailNum: Option<string>,
    flightNum: Option<string>)
  {
    /** The criterion for field `f`. */
    function Get(f: Field): Option<string>
    {
      match f
      case Carrier => carrier
      case FlightDate => flightDate
      case Origin => origin
      case Dest => dest
      case TailNum => tailNum
      case FlightNum => flightNum
    }
  }

  /** Reads the six criteria from the request parameters of the same names. */
  function CriteriaOf(args: Args): (c: Criteria)
    ensures forall f: Field :: c.Get(f) == Arg(args, f.Name())
  {
    Criteria(Arg(args, "Carrier"), Arg(args, "FlightDate"), Arg(args, "Origin"),
             Arg(args, "Dest"), Arg(args, "TailNum"), Arg(args, "FlightNum"))
  }

  /** `{'match': {field: value}}`: one mandatory condition of the boolean query. */
  datatype Clause = Match(field: Field, value: string)

  /** One entry of the sort list: `{name: {'order': ..., 'ignore_unmapped': ...}}` or `'_score'`. */
  datatype SortSpec = FieldSort(name: string, ascending: bool, ignoreUnmapped: bool) | Score

  /** The sort list of every search, whatever the criteria. */
  const FIXED_SORT: seq<SortSpec> := [
    FieldSort("FlightDate", true, true),
    FieldSort("DepTime", true, true),
    FieldSort("Carrier", true, true),
    FieldSort("FlightNum", true, true),
    Score
  ]

  /** The query document: `query.bool.must`, `sort`, `from` and `size`. */
  datatype Query = Query(must: seq<Clause>, sort: seq<SortSpec>, from: int, size: int)

  /** The `int()` of a pagination parameter failed. */
  datatype SearchError = ValueError(param: string)

  // ---------------------------------------------------------------------------
  // Specification: the must list as a fold over the fixed field list
  // ---------------------------------------------------------------------------

  /** The clause criterion `f` contributes: one when it is truthy, none otherwise. */
  function ClauseFor(c: Criteria, f: Field): seq<Clause>
  {
    if Truthy(c.Get(f)) then [Match(f, c.Get(f).value)] else []
  }

  /** The clauses of the fields `fs`, taken in order. */
  function MustFor(c: Criteria, fs: seq<Field>): seq<Clause>
  {
    if fs == [] then [] else MustFor(c, fs[..|fs| - 1]) + ClauseFor(c, fs[|fs| - 1])
  }

  /** The must list the route builds for criteria `c`. */
  function Must(c: Criteria): seq<Clause>
  {
    MustFor(c, FIELD_ORDER)
  }

  /** The fields whose criterion is truthy. */
  function PresentFields(c: Criteria): set<Field>
  {
    PresentIn(c, FIELD_ORDER)
  }

  /** Fields strictly increasing in FIELD_ORDER (so also without repeats). */
  predicate FieldsInOrder(fs: seq<Field>)
  {
    forall i, j :: 0 <= i < j < |fs| ==> Rank(fs[i]) < Rank(fs[j])
  }

  /** Fields without repeats. */
  predicate Distinct(fs: seq<Field>)
  {
    forall i, j :: 0 <= i < j < |fs| ==> fs[i] != fs[j]
  }

  /** Clauses whose fields are strictly increasing in FIELD_ORDER. */
  predicate ClausesInOrder(m: seq<Clause>)
  {
    forall i, j :: 0 <= i < j < |m| ==> Rank(m[i].field) < Rank(m[j].field)
  }

  /** `request.args.get(name) or default`, then `int()`; `None` when `int()` raises. */
  function PageParam(arg: Option<string>, default: int, parseInt: string -> Option<int>): Option<int>
  {
    if Truthy(arg) then parseInt(arg.value) else Some(default)
  }

  /** The query of the search route for the request parameters `args`. */
  function SearchQueryOf(args: Args, recordsPerPage: int, parseInt: string -> Option<int>): Result<Query, SearchError>
  {
    match PageParam(Arg(args, "start"), 0, parseInt)
    case None => Failure(ValueError("start"))
    case Some(start) =>
      match PageParam(Arg(args, "end"), recordsPerPage, parseInt)
      case None => Failure(ValueError("end"))
      case Some(_) => Success(Query(Must(CriteriaOf(args)), FIXED_SORT, start, recordsPerPage))
  }

  // ---------------------------------------------------------------------------
  // The route's code
  // ---------------------------------------------------------------------------

  /**
   * Builds the query skeleton with an empty must list, then appends one
   * `match` clause for each truthy criterion, in the route's order.
   */
  method BuildQuery(c: Criteria, start: int, recordsPerPage: int) returns (query: Query)
    ensures query.must == Must(c)
    ensures query.sort == FIXED_SORT
    ensures query.from == start && query.size == recordsPerPage
  {
    query := Query([], FIXED_SORT, start, recordsPerPage);
    if Truthy(c.carrier) {
      query := query.(must := query.must + [Match(Carrier, c.carrier.value)]);
    }
    assert query == Query(ClauseFor(c, Carrier), FIXED_SORT, start, recordsPerPage);
    if Truthy(c.flightDate) {
      query := query.(must := query.must + [Match(FlightDate, c.flightDate.value)]);
    }
    assert query == Query(ClauseFor(c, Carrier) + ClauseFor(c, FlightDate), FIXED_SORT, start, recordsPerPage);
    if Truthy(c.origin) {
      query := query.(must := query.must + [Match(Origin, c.origin.value)]);
    }
    assert query == Query(ClauseFor(c, Carrier) + ClauseFor(c, FlightDate) + ClauseFor(c, Origin), FIXED_SORT, start, recordsPerPage);
    if Truthy(c.dest) {
      query := query.(must := query.must + [Match(Dest, c.dest.value)]);
    }
    assert query == Query(ClauseFor(c, Carrier) + ClauseFor(c, FlightDate) + ClauseFor(c, Origin) + ClauseFor(c, Dest), FIXED_SORT, start, recordsPerPage);
    if Truthy(c.tailNum) {
      query := query.(must := query.must + [Match(TailNum, c.tailNum.value)]);
    }
    assert query == Query(ClauseFor(c, Carrier) + ClauseFor(c, FlightDate) + ClauseFor(c, Origin) + ClauseFor(c, Dest) + ClauseFor(c, TailNum), FIXED_SORT, start, recordsPerPage);
    if Truthy(c.flightNum) {
      query := query.(must := query.must + [Match(FlightNum, c.flightNum.value)]);
    }
    assert query == Query(ClauseFor(c, Carrier) + ClauseFor(c, FlightDate) + ClauseFor(c, Origin) + ClauseFor(c, Dest) + ClauseFor(c, TailNum) + ClauseFor(c, FlightNum), FIXED_SORT, start, recordsPerPage);
    MustUnfolded(c);
  }

  /**
   * Reads the criteria and the pagination parameters from the request, then
   * builds the query; `int()` of a malformed `start` or `end` raises.
   */
  method SearchQuery(args: Args, recordsPerPage: int, parseInt: string -> Option<int>)
    returns (r: Result<Query, SearchError>)
    ensures r == SearchQueryOf(args, recordsPerPage, parseInt)
    ensures r.Success? ==> r.value.sort == FIXED_SORT && r.value.size == recordsPerPage
  {
    var c := CriteriaOf(args);
    var start := PageParam(Arg(args, "start"), 0, parseInt);
    if start.None? {
      return Failure(ValueError("start"));
    }
    var end := PageParam(Arg(args, "end"), recordsPerPage, parseInt);
    if end.None? {
      return Failure(ValueError("end"));
    }
    var query := BuildQuery(c, start.value, recordsPerPage);
    r := Success(query);
  }

  // ---------------------------------------------------------------------------
  // Lemmas
  // ---------------------------------------------------------------------------

  /** Appending a field to the list appends that field's clause to the fold. */
  lemma MustForSnoc(c: Criteria, fs: seq<Field>, f: Field)
    ensures MustFor(c, fs + [f]) == MustFor(c, fs) + ClauseFor(c, f)
  {
  }

  /** The fold over FIELD_ORDER is the six conditional appends, one after the other. */
  lemma MustUnfolded(c: Criteria)
    ensures Must(c) == ClauseFor(c, Carrier) + ClauseFor(c, FlightDate) + ClauseFor(c, Origin)
                       + ClauseFor(c, Dest) + ClauseFor(c, TailNum) + ClauseFor(c, FlightNum)
  {
    var p0: seq<Field> := [];
    var p1 := p0 + [Carrier];
    var p2 := p1 + [FlightDate];
    var p3 := p2 + [Origin];
    var p4 := p3 + [Dest];
    var p5 := p4 + [TailNum];
    var p6 := p5 + [FlightNum];
    assert p6 == FIELD_ORDER;
    calc {
      MustFor(c, p6);
      { MustForSnoc(c, p5, FlightNum); }
      MustFor(c, p5) + ClauseFor(c, FlightNum);
      { MustForSnoc(c, p4, TailNum); }
      MustFor(c, p4) + ClauseFor(c, TailNum) + ClauseFor(c, FlightNum);
      { MustForSnoc(c, p3, Dest); }
      MustFor(c, p3) + ClauseFor(c, Dest) + ClauseFor(c, TailNum) + ClauseFor(c, FlightNum);
      { MustForSnoc(c, p2, Origin); }
      MustFor(c, p2) + ClauseFor(c, Origin) + ClauseFor(c, Dest) + ClauseFor(c, TailNum) + ClauseFor(c, FlightNum);
      { MustForSnoc(c, p1, FlightDate); }
      MustFor(c, p1) + ClauseFor(c, FlightDate) + ClauseFor(c, Origin) + ClauseFor(c, Dest)
        + ClauseFor(c, TailNum) + ClauseFor(c, FlightNum);
      { MustForSnoc(c, p0, Carrier); }
      ClauseFor(c, Carrier) + ClauseFor(c, FlightDate) + ClauseFor(c, Origin) + ClauseFor(c, Dest)
        + ClauseFor(c, TailNum) + ClauseFor(c, FlightNum);
    }
  }

  /** A clause is in the fold over `fs` exactly when its field is in `fs` with a truthy criterion equal to its value. */
  lemma {:induction false} MustForMembership(c: Criteria, fs: seq<Field>, cl: Clause)
    ensures cl in MustFor(c, fs) <==> cl.field in fs && c.Get(cl.field) == Some(cl.value) && cl.value != ""
  {
    if fs != [] {
      var init, last := fs[..|fs| - 1], fs[|fs| - 1];
      assert fs == init + [last];
      MustForMembership(c, init, cl);
    }
  }

  /** The fields of `fs` whose criterion is truthy. */
  function PresentIn(c: Criteria, fs: seq<Field>): set<Field>
  {
    set f | f in fs && Truthy(c.Get(f))
  }

  /** Appending a field adds it to the present fields exactly when its criterion is truthy. */
  lemma PresentInSnoc(c: Criteria, fs: seq<Field>, f: Field)
    ensures PresentIn(c, fs + [f]) == PresentIn(c, fs) + (if Truthy(c.Get(f)) then {f} else {})
  {
  }

  /** Over distinct fields, the fold holds one clause per field with a truthy criterion. */
  lemma {:induction false} MustForLength(c: Criteria, fs: seq<Field>)
    requires Distinct(fs)
    ensures |MustFor(c, fs)| == |PresentIn(c, fs)|
  {
    if fs != [] {
      var init, last := fs[..|fs| - 1], fs[|fs| - 1];
      assert fs == init + [last];
      assert Distinct(init) by {
        forall i, j | 0 <= i < j < |init| ensures init[i] != init[j] {
          assert init[i] == fs[i] && init[j] == fs[j];
        }
      }
      MustForLength(c, init);
      PresentInSnoc(c, init, last);
      assert forall i :: 0 <= i < |init| ==> init[i] != last by {
        forall i | 0 <= i < |init| ensures init[i] != last {
          assert init[i] == fs[i];
        }
      }
      assert last !in PresentIn(c, init);
    }
  }

  /** Over fields in FIELD_ORDER, the fold's clauses are in FIELD_ORDER too. */
  lemma {:induction false} MustForInOrder(c: Criteria, fs: seq<Field>)
    requires FieldsInOrder(fs)
    ensures ClausesInOrder(MustFor(c, fs))
  {
    if fs != [] {
      var init, last := fs[..|fs| - 1], fs[|fs| - 1];
      MustForInOrder(c, init);
      var m := MustFor(c, init);
      forall k | 0 <= k < |m|
        ensures Rank(m[k].field) < Rank(last)
      {
        MustForMembership(c, init, m[k]);
        var i :| 0 <= i < |init| && init[i] == m[k].field;
        assert Rank(fs[i]) < Rank(fs[|fs| - 1]);
      }
    }
  }

  /** FIELD_ORDER lists every field once, each at its rank. */
  lemma FieldOrderInOrder()
    ensures FieldsInOrder(FIELD_ORDER)
    ensures forall f: Field :: f in FIELD_ORDER
  {
    forall i | 0 <= i < |FIELD_ORDER|
      ensures Rank(FIELD_ORDER[i]) == i
    {
    }
    forall f: Field
      ensures f in FIELD_ORDER
    {
      assert FIELD_ORDER[Rank(f)] == f;
    }
  }

  /**
   * Each clause of the must list is a `match` on its criterion's own field
   * with the user's value unchanged, and each truthy criterion has one.
   */
  lemma MustMatchesCriteria(c: Criteria, cl: Clause)
    ensures cl in Must(c) <==> c.Get(cl.field) == Some(cl.value) && cl.value != ""
  {
    FieldOrderInOrder();
    MustForMembership(c, FIELD_ORDER, cl);
  }

  /** The must list has exactly as many clauses as there are truthy criteria. */
  lemma MustCount(c: Criteria)
    ensures |Must(c)| == |PresentFields(c)|
  {
    FieldOrderInOrder();
    MustForLength(c, FIELD_ORDER);
  }

  /**
   * The clauses come in the order Carrier, FlightDate, Origin, Dest, TailNum,
   * FlightNum, and no field has two.
   */
  lemma MustInFieldOrder(c: Criteria)
    ensures ClausesInOrder(Must(c))
    ensures forall i, j :: 0 <= i < j < |Must(c)| ==> Must(c)[i].field != Must(c)[j].field
  {
    FieldOrderInOrder();
    MustForInOrder(c, FIELD_ORDER);
  }

  /** The must list is empty ("match all") exactly when no criterion is truthy. */
  lemma MustEmptyIffNoCriteria(c: Criteria)
    ensures Must(c) == [] <==> forall f: Field :: !Truthy(c.Get(f))
  {
    MustCount(c);
    FieldOrderInOrder();
    if exists f: Field :: Truthy(c.Get(f)) {
      var f: Field :| Truthy(c.Get(f));
      assert f in PresentFields(c);
    } else {
      assert PresentFields(c) == {};
    }
  }

  /**
   * At request level: a clause is in the query's must list exactly when its
   * field's parameter is given with a non-empty value equal to the clause's.
   */
  lemma MustFromArgs(args: Args, recordsPerPage: int, parseInt: string -> Option<int>, cl: Clause)
    requires SearchQueryOf(args, recordsPerPage, parseInt).Success?
    ensures cl in SearchQueryOf(args, recordsPerPage, parseInt).value.must
        <==> cl.field.Name() in args && args[cl.field.Name()] == cl.value && cl.value != ""
  {
    MustMatchesCriteria(CriteriaOf(args), cl);
  }

  /** The fold depends on the criteria only through their truthiness and values. */
  lemma {:induction false} MustForSameTruthy(c: Criteria, d: Criteria, fs: seq<Field>)
    requires forall f: Field :: Truthy(c.Get(f)) == Truthy(d.Get(f))
    requires forall f: Field :: Truthy(c.Get(f)) ==> c.Get(f) == d.Get(f)
    ensures MustFor(c, fs) == MustFor(d, fs)
  {
    if fs != [] {
      MustForSameTruthy(c, d, fs[..|fs| - 1]);
    }
  }

  /**
   * A parameter given as the empty string gives the same outcome as a missing
   * one, for every parameter name, criteria and pagination alike.
   */
  lemma EmptyParamIsAbsent(args: Args, key: string, recordsPerPage: int, parseInt: string -> Option<int>)
    ensures SearchQueryOf(args[key := ""], recordsPerPage, parseInt)
         == SearchQueryOf(args - {key}, recordsPerPage, parseInt)
  {
    var blank, missing := args[key := ""], args - {key};
    forall name: string
      ensures Truthy(Arg(blank, name)) == Truthy(Arg(missing, name))
      ensures Truthy(Arg(blank, name)) ==> Arg(blank, name) == Arg(missing, name)
    {
      BlankArgIsMissing(args, key, name);
    }
    var cb, cm := CriteriaOf(blank), CriteriaOf(missing);
    MustForSameTruthy(cb, cm, FIELD_ORDER);
    assert PageParam(Arg(blank, "start"), 0, parseInt) == PageParam(Arg(missing, "start"), 0, parseInt);
    assert PageParam(Arg(blank, "end"), recordsPerPage, parseInt)
        == PageParam(Arg(missing, "end"), recordsPerPage, parseInt);
  }

  /** Reading any parameter, a blanked `key` and a removed `key` are equally falsy, and the rest agree. */
  lemma BlankArgIsMissing(args: Args, key: string, name: string)
    ensures Truthy(Arg(args[key := ""], name)) == Truthy(Arg(args - {key}, name))
    ensures Truthy(Arg(args[key := ""], name)) ==> Arg(args[key := ""], name) == Arg(args - {key}, name)
  {
  }

  /** `from` is the parsed `start`, and 0 when `start` is missing or empty. */
  lemma FromIsStart(args: Args, recordsPerPage: int, parseInt: string -> Option<int>)
    ensures var r := SearchQueryOf(args, recordsPerPage, parseInt);
      r.Success? ==> r.value.from == (if Truthy(Arg(args, "start")) then parseInt(args["start"]).value else 0)
  {
  }

  /** The request fails exactly when `start` or `end` is present, non-empty and not an integer, `start` checked first. */
  lemma MalformedPageParamFails(args: Args, recordsPerPage: int, parseInt: string -> Option<int>)
    ensures var r := SearchQueryOf(args, recordsPerPage, parseInt);
      var badStart := Truthy(Arg(args, "start")) && parseInt(args["start"]).None?;
      var badEnd := Truthy(Arg(args, "end")) && parseInt(args["end"]).None?;
      (r.Failure? <==> badStart || badEnd) &&
      (badStart ==> r == Failure(ValueError("start"))) &&
      (!badStart && badEnd ==> r == Failure(ValueError("end")))
  {
  }

  /**
   * `size` is the configured page size: whatever well-formed `end` the
   * request gives, the query is the one built without it.
   */
  lemma SizeIgnoresEnd(args: Args, end: string, recordsPerPage: int, parseInt: string -> Option<int>)
    requires end == "" || parseInt(end).Some?
    ensures SearchQueryOf(args["end" := end], recordsPerPage, parseInt)
         == SearchQueryOf(args - {"end"}, recordsPerPage, parseInt)
    ensures var r := SearchQueryOf(args["end" := end], recordsPerPage, parseInt);
      r.Success? ==> r.value.size == recordsPerPage
  {
  }

  /**
   * Every query is sorted by FlightDate, DepTime, Carrier and FlightNum, each
   * ascending and ignoring documents that lack the field, then by score.
   */
  lemma SortIsFixed(args: Args, recordsPerPage: int, parseInt: string -> Option<int>)
    ensures var r := SearchQueryOf(args, recordsPerPage, parseInt);
      r.Success? ==> r.value.sort == FIXED_SORT
    ensures |FIXED_SORT| == 5 && FIXED_SORT[4] == Score
    ensures forall i :: 0 <= i < 4 ==> FIXED_SORT[i].FieldSort? && FIXED_SORT[i].ascending && FIXED_SORT[i].ignoreUnmapped
    ensures [FIXED_SORT[0].name, FIXED_SORT[1].name, FIXED_SORT[2].name, FIXED_SORT[3].name]
         == ["FlightDate", "DepTime", "Carrier", "FlightNum"]
  {
  }

  /** A request naming a carrier and a date, and nothing else, filters on those two fields from offset 0. */
  lemma CarrierAndDateExample(recordsPerPage: int, parseInt: string -> Option<int>)
    ensures SearchQueryOf(map["Carrier" := "AA", "FlightDate" := "2015-01-01"], recordsPerPage, parseInt)
         == Success(Query([Match(Carrier, "AA"), Match(FlightDate, "2015-01-01")], FIXED_SORT, 0, recordsPerPage))
  {
    var args := map["Carrier" := "AA", "FlightDate" := "2015-01-01"];
    var c := CriteriaOf(args);
    assert "start" !in args && "end" !in args;
    assert c == Criteria(Some("AA"), Some("2015-01-01"), None, None, None, None);
    MustUnfolded(c);
    assert Must(c) == [Match(Carrier, "AA"), Match(FlightDate, "2015-01-01")];
    assert PageParam(Arg(args, "start"), 0, parseInt) == Some(0);
    assert PageParam(Arg(args, "end"), recordsPerPage, parseInt) == Some(recordsPerPage);
    assert SearchQueryOf(args, recordsPerPage, parseInt) == Success(Query(Must(c), FIXED_SORT, 0, recordsPerPage));
  }
}
