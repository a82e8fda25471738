/** The application map: an index of observations by endpoint, updated in place, against unions over the history. */
module ApplicationMap {
  import opened Text
  import opened Json
  import opened PathTemplate
  import opened Redaction

  /** The lists an endpoint accumulates. */
  datatype Field = QueryParams | ObjectRefs | AuthProfiles | StatusCodes | ResponseFields | EvidenceIds

  const FIELDS := [QueryParams, ObjectRefs, AuthProfiles, StatusCodes, ResponseFields, EvidenceIds]

  /** One call of `observe`, after URL and body have been parsed. */
  datatype Observation = Observation(
    verb: string, origin: string, path: string, queryKeys: seq<string>, authProfile: Option<string>,
    status: int, body: Option<Json>, evidenceId: string, redactedUrl: string)

  /** The library calls: `str.lower`, and the endpoint id, a truncated digest of the identity string. */
  datatype Library = Library(lower: string -> string, endpointId: string -> string)
  {
    function Harmless(keys: set<string>): set<string> {
      set k | k in keys && lower(k) !in SENSITIVE_BODY_KEYS
    }
  }

  function PathOf(o: Observation): string { if o.path == "" then "/" else o.path }

  function QueryNames(lib: Library, o: Observation): seq<string> {
    SortSet(lib.Harmless(set k | k in o.queryKeys))
  }

  /** `_json_field_names`: at most 100 names, none of them sensitive. */
  function JsonFieldNames(lib: Library, body: Option<Json>): seq<string> {
    match body
    case Some(Obj(fields)) =>
      var names := SortSet(lib.Harmless(fields.Keys));
      if |names| > 100 then names[..100] else names
    case _ => []
  }

  function Identity(lib: Library, o: Observation): string {
    o.verb + "|" + o.origin + TemplateOf(PathOf(o)) + "|" + Join(QueryNames(lib, o), ',')
  }

  function IdOf(lib: Library, o: Observation): string { lib.endpointId(Identity(lib, o)) }

  /**
   * What an observation adds to a field; a status code is listed under its decimal text, by which the code sorts it.
   */
  function Values(lib: Library, o: Observation, f: Field): seq<string> {
    match f
    case QueryParams => QueryNames(lib, o)
    case ObjectRefs => RefsOf(PathOf(o))
    case AuthProfiles => if o.authProfile.Some? && o.authProfile.value != "" then [o.authProfile.value] else []
    case StatusCodes => [Decimal(o.status)]
    case ResponseFields => JsonFieldNames(lib, o.body)
    case EvidenceIds => [o.evidenceId]
  }

  datatype Endpoint = Endpoint(
    endpointId: string, verb: string, origin: string, pathTemplate: string,
    lists: map<Field, seq<string>>, lastObservedUrl: Option<string>)
  {
    function ListOf(f: Field): seq<string> { if f in lists then lists[f] else [] }
  }

  type Endpoints = map<string, Endpoint>

  function Blank(lib: Library, o: Observation): Endpoint {
    Endpoint(IdOf(lib, o), o.verb, o.origin, TemplateOf(PathOf(o)), map f | f in FIELDS :: [], None)
  }

  function Elements(q: seq<string>): set<string> { set x | x in q }

  /** `endpoint[field] = sorted(set(current) | values)` */
  function Merged(current: seq<string>, values: seq<string>): seq<string> {
    SortSet(Elements(current) + Elements(values))
  }

  function MergeField(lib: Library, e: Endpoint, o: Observation, f: Field): Endpoint {
    e.(lists := e.lists[f := Merged(e.ListOf(f), Values(lib, o, f))])
  }

  /** The endpoint after each of `fields` has been merged in turn. */
  function MergeFields(lib: Library, e: Endpoint, o: Observation, fields: seq<Field>): Endpoint {
    if fields == [] then e
    else MergeField(lib, MergeFields(lib, e, o, fields[..|fields| - 1]), o, fields[|fields| - 1])
  }

  function Observed(lib: Library, endpoints: Endpoints, o: Observation): Endpoints {
    var id := IdOf(lib, o);
    var e := if id in endpoints then endpoints[id] else Blank(lib, o);
    endpoints[id := MergeFields(lib, e, o, FIELDS).(lastObservedUrl := Some(o.redactedUrl))]
  }

  class ApplicationMapStore {
    const lib: Library
    var endpoints: Endpoints

    constructor (lib: Library, loaded: Endpoints)
      ensures this.lib == lib && endpoints == loaded
    {
      this.lib := lib;
      endpoints := loaded;
    }

    method Observe(o: Observation) returns (endpointId: string)
      modifies this
      ensures endpointId == IdOf(lib, o)
      ensures endpoints == Observed(lib, old(endpoints), o)
    {
      var template, refs := Template(PathOf(o));
      var queryParams := QueryNames(lib, o);
      endpointId := lib.endpointId(o.verb + "|" + o.origin + template + "|" + Join(queryParams, ','));
      var start := if endpointId in endpoints then endpoints[endpointId] else Blank(lib, o);
      var endpoint := MergeInto(start, o, queryParams, refs);
      endpoints := endpoints[endpointId := endpoint.(lastObservedUrl := Some(o.redactedUrl))];
    }

    /** The loop over the fields. */
    method MergeInto(start: Endpoint, o: Observation, queryParams: seq<string>, refs: seq<string>)
      returns (endpoint: Endpoint)
      requires queryParams == QueryNames(lib, o) && refs == RefsOf(PathOf(o))
      ensures endpoint == MergeFields(lib, start, o, FIELDS)
    {
      endpoint := start;
      var fields := FIELDS;
      for n := 0 to |fields|
        invariant endpoint == MergeFields(lib, start, o, fields[..n])
      {
        var field := fields[n];
        var values :=
          if field == ObjectRefs then refs else if field == QueryParams then queryParams else Values(lib, o, field);
        assert values == Values(lib, o, field);
        MergeOneMore(lib, start, o, fields, n);
        var current := endpoint.ListOf(field);
        endpoint := endpoint.(lists := endpoint.lists[field := SortSet(Elements(current) + Elements(values))]);
      }
      assert fields[..|fields|] == fields;
    }
  }

  lemma MergeOneMore(lib: Library, e: Endpoint, o: Observation, fields: seq<Field>, n: nat)
    requires n < |fields|
    ensures MergeFields(lib, e, o, fields[..n + 1]) ==
      MergeField(lib, MergeFields(lib, e, o, fields[..n]), o, fields[n])
  {
    assert fields[..n + 1][..n] == fields[..n];
  }

  lemma FieldsDistinct()
    ensures forall i, j :: 0 <= i < j < |FIELDS| ==> FIELDS[i] != FIELDS[j]
    ensures forall f: Field :: f in FIELDS
  {
    forall f: Field ensures f in FIELDS {
      match f
      case QueryParams => assert FIELDS[0] == f;
      case ObjectRefs => assert FIELDS[1] == f;
      case AuthProfiles => assert FIELDS[2] == f;
      case StatusCodes => assert FIELDS[3] == f;
      case ResponseFields => assert FIELDS[4] == f;
      case EvidenceIds => assert FIELDS[5] == f;
    }
  }

  /** Merging field after field merges each of them once. */
  lemma {:induction false} MergeEach(lib: Library, e: Endpoint, o: Observation, fields: seq<Field>, f: Field)
    requires forall i, j :: 0 <= i < j < |fields| ==> fields[i] != fields[j]
    ensures MergeFields(lib, e, o, fields).ListOf(f) ==
      if f in fields then Merged(e.ListOf(f), Values(lib, o, f)) else e.ListOf(f)
  {
    if fields != [] {
      var front, last := fields[..|fields| - 1], fields[|fields| - 1];
      MergeEach(lib, e, o, front, f);
      assert f in fields <==> f in front || f == last;
      assert last !in front;
    }
  }

  // ---------------------------------------------------------------- the whole history at once

  /** The map after a history of observations. */
  function After(lib: Library, loaded: Endpoints, history: seq<Observation>): Endpoints {
    if history == [] then loaded
    else Observed(lib, After(lib, loaded, history[..|history| - 1]), history[|history| - 1])
  }

  ghost predicate Seen(lib: Library, history: seq<Observation>, id: string) {
    exists o :: o in history && IdOf(lib, o) == id
  }

  /** Everything the observations of one endpoint ever said about a field. */
  ghost function Union(lib: Library, history: seq<Observation>, id: string, f: Field): set<string> {
    set o, v | o in history && IdOf(lib, o) == id && v in Values(lib, o, f) :: v
  }

  function FieldList(endpoints: Endpoints, id: string, f: Field): seq<string> {
    if id in endpoints then endpoints[id].ListOf(f) else []
  }

  /** What was loaded for a field, and everything said about it since. */
  ghost function Total(lib: Library, loaded: Endpoints, history: seq<Observation>, id: string, f: Field): set<string> {
    Elements(FieldList(loaded, id, f)) + Union(lib, history, id, f)
  }

  lemma SortElements(q: set<string>)
    ensures Elements(SortSet(q)) == q
  {
  }

  lemma UnionStep(lib: Library, history: seq<Observation>, o: Observation, id: string, f: Field)
    ensures Union(lib, history + [o], id, f) ==
      Union(lib, history, id, f) + (if IdOf(lib, o) == id then Elements(Values(lib, o, f)) else {})
  {
  }

  lemma SeenStep(lib: Library, history: seq<Observation>, o: Observation, id: string)
    ensures Seen(lib, history + [o], id) <==> Seen(lib, history, id) || IdOf(lib, o) == id
  {
    if IdOf(lib, o) == id { assert o in history + [o]; }
    if Seen(lib, history, id) {
      var p :| p in history && IdOf(lib, p) == id;
      assert p in history + [o];
    }
  }

  lemma UnionOfUnseen(lib: Library, history: seq<Observation>, id: string, f: Field)
    requires !Seen(lib, history, id)
    ensures Union(lib, history, id, f) == {}
  {
  }

  /** One observation merges into its own endpoint and leaves the others alone. */
  lemma ObservedField(lib: Library, endpoints: Endpoints, o: Observation, id: string, f: Field)
    ensures var next := Observed(lib, endpoints, o);
      if IdOf(lib, o) == id then
        id in next && FieldList(next, id, f) == Merged(FieldList(endpoints, id, f), Values(lib, o, f))
      else (id in next <==> id in endpoints) && (id in endpoints ==> next[id] == endpoints[id])
  {
    if IdOf(lib, o) == id {
      FieldsDistinct();
      MergeEach(lib, if id in endpoints then endpoints[id] else Blank(lib, o), o, FIELDS, f);
    }
  }

  /** The index entry for an endpoint is what the whole history says about it. */
  ghost predicate Indexed(lib: Library, loaded: Endpoints, history: seq<Observation>, id: string, f: Field) {
    var now := After(lib, loaded, history);
    if Seen(lib, history, id) then id in now && FieldList(now, id, f) == SortSet(Total(lib, loaded, history, id, f))
    else (id in now <==> id in loaded) && (id in loaded ==> now[id] == loaded[id])
  }

  lemma IndexedElements(lib: Library, loaded: Endpoints, history: seq<Observation>, id: string, f: Field)
    requires Indexed(lib, loaded, history, id, f)
    ensures Elements(FieldList(After(lib, loaded, history), id, f)) == Total(lib, loaded, history, id, f)
  {
    if Seen(lib, history, id) {
      SortElements(Total(lib, loaded, history, id, f));
    } else {
      UnionOfUnseen(lib, history, id, f);
    }
  }

  lemma AfterAppend(lib: Library, loaded: Endpoints, front: seq<Observation>, o: Observation)
    ensures After(lib, loaded, front + [o]) == Observed(lib, After(lib, loaded, front), o)
  {
    assert (front + [o])[..|front|] == front;
  }

  lemma TotalStep(lib: Library, loaded: Endpoints, front: seq<Observation>, o: Observation, id: string, f: Field)
    ensures Total(lib, loaded, front + [o], id, f) ==
      Total(lib, loaded, front, id, f) + (if IdOf(lib, o) == id then Elements(Values(lib, o, f)) else {})
  {
    UnionStep(lib, front, o, id, f);
  }

  lemma IndexStepOwn(lib: Library, loaded: Endpoints, front: seq<Observation>, o: Observation, id: string, f: Field)
    requires Indexed(lib, loaded, front, id, f) && IdOf(lib, o) == id
    ensures Indexed(lib, loaded, front + [o], id, f)
  {
    AfterAppend(lib, loaded, front, o);
    ObservedField(lib, After(lib, loaded, front), o, id, f);
    IndexedElements(lib, loaded, front, id, f);
    TotalStep(lib, loaded, front, o, id, f);
    assert o in front + [o];
  }

  lemma IndexStepOther(lib: Library, loaded: Endpoints, front: seq<Observation>, o: Observation, id: string, f: Field)
    requires Indexed(lib, loaded, front, id, f) && IdOf(lib, o) != id
    ensures Indexed(lib, loaded, front + [o], id, f)
  {
    AfterAppend(lib, loaded, front, o);
    ObservedField(lib, After(lib, loaded, front), o, id, f);
    SeenStep(lib, front, o, id);
    TotalStep(lib, loaded, front, o, id, f);
    assert Total(lib, loaded, front + [o], id, f) == Total(lib, loaded, front, id, f);
  }

  lemma IndexOfNothing(lib: Library, loaded: Endpoints, id: string, f: Field)
    ensures Indexed(lib, loaded, [], id, f)
  {
  }

  lemma IndexStep(lib: Library, loaded: Endpoints, front: seq<Observation>, o: Observation, id: string, f: Field)
    requires Indexed(lib, loaded, front, id, f)
    ensures Indexed(lib, loaded, front + [o], id, f)
  {
    if IdOf(lib, o) == id {
      IndexStepOwn(lib, loaded, front, o, id, f);
    } else {
      IndexStepOther(lib, loaded, front, o, id, f);
    }
  }

  /**
   * The index agrees with the plain reading of the history: a field of an observed endpoint is the sorted union of
   * what was loaded and of what its own observations said; an endpoint that was not observed is left alone.
   */
  lemma {:induction false} IndexIsGroupedUnion(lib: Library, loaded: Endpoints, history: seq<Observation>, id: string,
                                               f: Field)
    ensures Indexed(lib, loaded, history, id, f)
  {
    if history == [] {
      IndexOfNothing(lib, loaded, id, f);
    } else {
      var front, o := history[..|history| - 1], history[|history| - 1];
      assert history == front + [o];
      IndexIsGroupedUnion(lib, loaded, front, id, f);
      IndexStep(lib, loaded, front, o, id, f);
    }
  }

  /** Order and repetition of the observations do not matter to any accumulated field. */
  lemma OrderIrrelevant(lib: Library, loaded: Endpoints, h: seq<Observation>, g: seq<Observation>, id: string, f: Field)
    requires forall o :: o in h <==> o in g
    ensures var x, y := After(lib, loaded, h), After(lib, loaded, g);
      (id in x <==> id in y) && FieldList(x, id, f) == FieldList(y, id, f)
  {
    IndexIsGroupedUnion(lib, loaded, h, id, f);
    IndexIsGroupedUnion(lib, loaded, g, id, f);
    assert Union(lib, h, id, f) == Union(lib, g, id, f);
  }

  /** What a field once held it keeps, and an observed field is strictly sorted, so without duplicates. */
  lemma FieldsOnlyGrow(lib: Library, loaded: Endpoints, h: seq<Observation>, more: seq<Observation>, id: string,
                       f: Field)
    ensures var x, y := After(lib, loaded, h), After(lib, loaded, h + more);
      && Elements(FieldList(x, id, f)) <= Elements(FieldList(y, id, f))
      && (Seen(lib, h, id) ==> StrictlySorted(FieldList(x, id, f)))
  {
    IndexIsGroupedUnion(lib, loaded, h, id, f);
    IndexIsGroupedUnion(lib, loaded, h + more, id, f);
    IndexedElements(lib, loaded, h, id, f);
    IndexedElements(lib, loaded, h + more, id, f);
    assert Union(lib, h, id, f) <= Union(lib, h + more, id, f);
  }

  /** The names in front of `x` that may be listed with it. */
  ghost function HarmlessBefore(lib: Library, fields: map<string, Json>, x: string): set<string> {
    set y | y in fields && lib.lower(y) !in SENSITIVE_BODY_KEYS && Less(y, x)
  }

  /** What an observation says about a field, in its own terms. */
  ghost predicate Says(lib: Library, o: Observation, f: Field, x: string) {
    match f
    case QueryParams => x in o.queryKeys && lib.lower(x) !in SENSITIVE_BODY_KEYS
    case ObjectRefs => x in Split(if o.path == "" then "/" else o.path, '/') && IsIdSegment(x)
    case AuthProfiles => o.authProfile == Some(x) && x != ""
    case StatusCodes => x == Decimal(o.status)
    case ResponseFields =>
      && o.body.Some? && o.body.value.Obj? && x in o.body.value.fields
      && lib.lower(x) !in SENSITIVE_BODY_KEYS
      && |HarmlessBefore(lib, o.body.value.fields, x)| < 100
    case EvidenceIds => x == o.evidenceId
  }

  lemma ResponseFieldsExactly(lib: Library, fields: map<string, Json>, x: string)
    ensures x in JsonFieldNames(lib, Some(Obj(fields))) <==>
      x in fields && lib.lower(x) !in SENSITIVE_BODY_KEYS && |HarmlessBefore(lib, fields, x)| < 100
  {
    var names := SortSet(lib.Harmless(fields.Keys));
    if x in names {
      var i :| 0 <= i < |names| && names[i] == x;
      RankIsPosition(names, i);
      assert HarmlessBefore(lib, fields, x) == Preceding(names, names[i]);
      if x in names[..if |names| > 100 then 100 else |names|] {
        var j :| 0 <= j < 100 && j < |names| && names[j] == x;
        LessTotal(x, x);
        assert i == j;
      }
    }
  }

  lemma SaysExactly(lib: Library, o: Observation, f: Field, x: string)
    ensures x in Values(lib, o, f) <==> Says(lib, o, f, x)
  {
    match f
    case ObjectRefs => IdsExactly(Segments(PathOf(o)), x);
    case ResponseFields =>
      if o.body.Some? && o.body.value.Obj? { ResponseFieldsExactly(lib, o.body.value.fields, x); }
    case _ =>
  }

  /** Something is listed in a field of an endpoint exactly when it was loaded, or an observation of it said so. */
  lemma ListedExactly(lib: Library, loaded: Endpoints, history: seq<Observation>, id: string, f: Field, x: string)
    ensures x in FieldList(After(lib, loaded, history), id, f) <==>
      || x in FieldList(loaded, id, f)
      || exists o :: o in history && IdOf(lib, o) == id && Says(lib, o, f, x)
  {
    IndexIsGroupedUnion(lib, loaded, history, id, f);
    IndexedElements(lib, loaded, history, id, f);
    var listed := FieldList(After(lib, loaded, history), id, f);
    assert x in listed <==> x in Elements(listed);
    if x in Union(lib, history, id, f) {
      var o :| o in history && IdOf(lib, o) == id && x in Values(lib, o, f);
      SaysExactly(lib, o, f, x);
    }
    if o :| o in history && IdOf(lib, o) == id && Says(lib, o, f, x) {
      SaysExactly(lib, o, f, x);
      assert x in Values(lib, o, f);
    }
  }

  /** A status code is listed for an endpoint exactly when it was loaded or observed there. */
  lemma StatusListedExactly(lib: Library, loaded: Endpoints, history: seq<Observation>, id: string, status: int)
    ensures Decimal(status) in FieldList(After(lib, loaded, history), id, StatusCodes) <==>
      || Decimal(status) in FieldList(loaded, id, StatusCodes)
      || exists o :: o in history && IdOf(lib, o) == id && o.status == status
  {
    ListedExactly(lib, loaded, history, id, StatusCodes, Decimal(status));
    if o :| o in history && IdOf(lib, o) == id && Says(lib, o, StatusCodes, Decimal(status)) {
      DecimalInjective(status, o.status);
    }
    if o :| o in history && IdOf(lib, o) == id && o.status == status {
      assert Says(lib, o, StatusCodes, Decimal(status));
    }
  }

  // ---------------------------------------------------------------- which observations share an endpoint

  /** The parts of an identity have no bar in them. */
  predicate Barless(lib: Library, o: Observation) {
    '|' !in o.verb && '|' !in o.origin + TemplateOf(PathOf(o)) && '|' !in Join(QueryNames(lib, o), ',')
  }

  /** Two such observations have one identity exactly when method, templated address and query names are the same. */
  lemma IdentityExactly(lib: Library, o: Observation, p: Observation)
    requires Barless(lib, o) && Barless(lib, p)
    ensures Identity(lib, o) == Identity(lib, p) <==>
      && o.verb == p.verb
      && o.origin + TemplateOf(if o.path == "" then "/" else o.path) ==
         p.origin + TemplateOf(if p.path == "" then "/" else p.path)
      && Join(QueryNames(lib, o), ',') == Join(QueryNames(lib, p), ',')
  {
    var a, b := o.origin + TemplateOf(PathOf(o)), p.origin + TemplateOf(PathOf(p));
    var v, w := Join(QueryNames(lib, o), ','), Join(QueryNames(lib, p), ',');
    assert Identity(lib, o) == o.verb + ['|'] + (a + ['|'] + v);
    assert Identity(lib, p) == p.verb + ['|'] + (b + ['|'] + w);
    if Identity(lib, o) == Identity(lib, p) {
      HeadEndsAtSeparator(o.verb, p.verb, a + ['|'] + v, b + ['|'] + w, '|');
      HeadEndsAtSeparator(a, b, v, w, '|');
    }
  }

  ghost predicate HeadedBy(e: Endpoint, id: string, o: Observation) {
    e.endpointId == id && e.verb == o.verb && e.origin == o.origin && e.pathTemplate == TemplateOf(PathOf(o))
  }

  /** An entry is described once, when its endpoint is first observed, and always carries the latest address. */
  lemma ObservedHead(lib: Library, endpoints: Endpoints, o: Observation)
    ensures var id := IdOf(lib, o);
      && id in Observed(lib, endpoints, o)
      && Observed(lib, endpoints, o)[id].lastObservedUrl == Some(o.redactedUrl)
      && (id !in endpoints ==> HeadedBy(Observed(lib, endpoints, o)[id], id, o))
      && (forall p :: id in endpoints && HeadedBy(endpoints[id], id, p) ==>
            HeadedBy(Observed(lib, endpoints, o)[id], id, p))
  {
    MergeKeepsHead(lib, if IdOf(lib, o) in endpoints then endpoints[IdOf(lib, o)] else Blank(lib, o), o, FIELDS);
  }

  lemma {:induction false} MergeKeepsHead(lib: Library, e: Endpoint, o: Observation, fields: seq<Field>)
    ensures MergeFields(lib, e, o, fields) == e.(lists := MergeFields(lib, e, o, fields).lists)
  {
    if fields != [] { MergeKeepsHead(lib, e, o, fields[..|fields| - 1]); }
  }
}
