/**
 * The authorization verdict (`_signature` and the pure part of `compare`) and what a verdict says about the responses.
 */
module Findings {
  import opened Text
  import opened Json
  import opened JsonReading

  datatype HttpResponse = HttpResponse(status: int, body: Bytes)

  /** The field names the validator knows. */
  datatype FieldNames = FieldNames(impact: set<string>, id: set<string>, volatile: set<string>)

  const FIELD_NAMES := FieldNames(
    { "address", "balance", "customer_id", "document", "document_url", "email", "internal_id", "owner",
      "payment", "phone", "phone_number", "role", "secret", "ssn" },
    { "id", "uuid", "user_id", "account_id", "order_id", "object_id", "resource_id" },
    { "created_at", "updated_at", "timestamp", "request_id", "trace_id", "nonce" })

  /** The field names, and the library calls: `str.lower`, `json.loads` after decoding, and the two digests. */
  datatype Library = Library(
    names: FieldNames,
    lower: string -> string,
    loads: Bytes -> Option<Json>,
    bodyDigest: Bytes -> Bytes,
    textDigest: string -> string)
  {
    ghost predicate Valid() {
      && names.id !! names.volatile
      && forall b :: loads(b).Some? ==> WellFormed(loads(b).value)
    }
  }

  // ---------------------------------------------------------------- signatures

  /** The top-level object of a body, if the body is one. */
  function ObjectOf(lib: Library, r: HttpResponse): Option<map<string, Json>> {
    match lib.loads(r.body)
    case Some(Obj(fields)) => Some(fields)
    case _ => None
  }

  /** `isinstance(item, (str, int, float))`; Python's `bool` is an `int`. */
  predicate IsScalar(item: Json) { item.Str? || item.Int? || item.Float? || item.Bool? }

  /** The item inside an f-string. */
  function Render(item: Json): string
    requires IsScalar(item)
  {
    match item
    case Str(s) => s
    case Int(n) => Decimal(n)
    case Bool(b) => if b then "True" else "False"
    case Float(repr) =>
      if repr == "NaN" then "nan"
      else if repr == "Infinity" then "inf"
      else if repr == "-Infinity" then "-inf"
      else repr
  }

  predicate IsIdField(lib: Library, fields: map<string, Json>, key: string) {
    key in fields && lib.lower(key) in lib.names.id && IsScalar(fields[key])
  }

  function ObjectId(key: string, item: Json): string
    requires IsScalar(item)
  {
    key + "=" + Render(item)
  }

  function IdsAmong(lib: Library, fields: map<string, Json>, keys: set<string>): set<string> {
    set key | key in keys && IsIdField(lib, fields, key) :: ObjectId(key, fields[key])
  }

  function ObjectIds(lib: Library, fields: map<string, Json>): set<string> {
    IdsAmong(lib, fields, fields.Keys)
  }

  function KeptAmong(lib: Library, fields: map<string, Json>, keys: set<string>): map<string, Json> {
    map key | key in keys && key in fields && lib.lower(key) !in lib.names.volatile :: fields[key]
  }

  /** The object without its volatile top-level fields. */
  function Normalized(lib: Library, fields: map<string, Json>): map<string, Json> {
    KeptAmong(lib, fields, fields.Keys)
  }

  function NormalForm(lib: Library, r: HttpResponse): Json {
    match ObjectOf(lib, r)
    case Some(fields) => Obj(Normalized(lib, fields))
    case None => Null
  }

  /** The object ids and the field names of a response; none when the body is not an object. */
  function IdsOf(lib: Library, r: HttpResponse): set<string> {
    ObjectIds(lib, ObjectOf(lib, r).GetOr(map[]))
  }

  function FieldsOf(lib: Library, r: HttpResponse): set<string> {
    ObjectOf(lib, r).GetOr(map[]).Keys
  }

  /** `object_ids` is only ever used as a set. */
  datatype ResponseSignature = ResponseSignature(
    status: int, bodyDigest: Bytes, objectIds: set<string>, fields: seq<string>, normalizedDigest: string)

  function SignatureOf(lib: Library, r: HttpResponse): ResponseSignature {
    ResponseSignature(
      r.status, lib.bodyDigest(r.body), IdsOf(lib, r), SortSet(FieldsOf(lib, r)),
      lib.textDigest(Print(NormalForm(lib, r))))
  }

  method Signature(lib: Library, r: HttpResponse) returns (sig: ResponseSignature)
    ensures sig == SignatureOf(lib, r)
  {
    var objectIds, fields, normalized := {}, [], Null;
    var value := ObjectOf(lib, r);
    if value.Some? {
      var items := value.value;
      fields := SortSet(items.Keys);
      var kept: map<string, Json> := map[];
      var seen, rest := {}, items.Keys;
      while rest != {}
        invariant seen + rest == items.Keys
        invariant objectIds == IdsAmong(lib, items, seen)
        invariant kept == KeptAmong(lib, items, seen)
        decreases rest
      {
        var key :| key in rest;
        AmongStep(lib, items, seen, key);
        if lib.lower(key) in lib.names.id && IsScalar(items[key]) {
          objectIds := objectIds + {ObjectId(key, items[key])};
        }
        if lib.lower(key) !in lib.names.volatile {
          kept := kept[key := items[key]];
        }
        seen, rest := seen + {key}, rest - {key};
      }
      assert seen == items.Keys;
      normalized := Obj(kept);
    }
    sig := ResponseSignature(r.status, lib.bodyDigest(r.body), objectIds, fields, lib.textDigest(Print(normalized)));
  }

  lemma AmongStep(lib: Library, fields: map<string, Json>, keys: set<string>, key: string)
    requires key in fields
    ensures IdsAmong(lib, fields, keys + {key}) ==
      IdsAmong(lib, fields, keys) + (if IsIdField(lib, fields, key) then {ObjectId(key, fields[key])} else {})
    ensures KeptAmong(lib, fields, keys + {key}) ==
      if lib.lower(key) in lib.names.volatile then KeptAmong(lib, fields, keys)
      else KeptAmong(lib, fields, keys)[key := fields[key]]
  {
  }

  // ---------------------------------------------------------------- what a shared id says

  /** What an f-string writes for a plain value. */
  predicate Spells(text: string, item: Json) {
    match item
    case Str(s) => text == s
    case Int(n) => text == Decimal(n)
    case Bool(b) => text == if b then "True" else "False"
    case Float(repr) =>
      && (repr == "NaN" ==> text == "nan")
      && (repr == "Infinity" ==> text == "inf")
      && (repr == "-Infinity" ==> text == "-inf")
      && (repr !in ["NaN", "Infinity", "-Infinity"] ==> text == repr)
    case _ => false
  }

  /** Two plain values that the validator takes for one identifier: they are written alike. */
  ghost predicate SameIdentifier(x: Json, y: Json) {
    exists text :: Spells(text, x) && Spells(text, y)
  }

  /** Of one kind they are equal; otherwise one of them is a string that spells the other. */
  lemma SameIdentifierMeans(x: Json, y: Json)
    requires SameIdentifier(x, y)
    ensures x.Int? && y.Int? ==> x == y
    ensures x.Str? && y.Str? ==> x == y
    ensures x.Bool? && y.Bool? ==> x == y
    ensures (x.Str? ==> Spells(x.s, y)) && (y.Str? ==> Spells(y.s, x))
  {
    var text :| Spells(text, x) && Spells(text, y);
    if x.Int? && y.Int? { DecimalInjective(x.n, y.n); }
    assert "True"[0] == 'T' && "False"[0] == 'F';
  }

  /** So a number and the string that spells it do count as one identifier. */
  lemma NumberMatchesItsSpelling(n: int)
    ensures SameIdentifier(Int(n), Str(Decimal(n)))
  {
    assert Spells(Decimal(n), Int(n)) && Spells(Decimal(n), Str(Decimal(n)));
  }

  lemma RenderSpells(item: Json, text: string)
    ensures IsScalar(item) ==> (Spells(text, item) <==> text == Render(item))
    ensures Spells(text, item) ==> IsScalar(item)
  {
  }

  /** Fields whose names have no equals sign give one id exactly when they have one name and one identifier. */
  lemma SameIdExactly(k: string, x: Json, l: string, y: Json)
    requires IsScalar(x) && IsScalar(y) && '=' !in k && '=' !in l
    ensures ObjectId(k, x) == ObjectId(l, y) <==> k == l && SameIdentifier(x, y)
  {
    RenderSpells(x, Render(x));
    RenderSpells(y, Render(y));
    if ObjectId(k, x) == ObjectId(l, y) {
      HeadEndsAtSeparator(k, l, Render(x), Render(y), '=');
    }
    if SameIdentifier(x, y) {
      var text :| Spells(text, x) && Spells(text, y);
      RenderSpells(x, text);
      RenderSpells(y, text);
    }
  }

  /** No identifier's name has an equals sign. */
  ghost predicate PlainNames(lib: Library) {
    forall key: string :: '=' in key ==> lib.lower(key) !in lib.names.id
  }

  /** Two objects name one identifier in a field of the same name. */
  ghost predicate ShareIdentifier(lib: Library, key: string, a: map<string, Json>, b: map<string, Json>) {
    key in a && key in b && lib.lower(key) in lib.names.id && SameIdentifier(a[key], b[key])
  }

  /** Two responses have an id in common exactly when their objects share an identifier. */
  lemma SharedIdExactly(lib: Library, a: HttpResponse, b: HttpResponse)
    requires PlainNames(lib)
    ensures (exists id :: id in IdsOf(lib, a) && id in IdsOf(lib, b)) <==>
      && ObjectOf(lib, a).Some? && ObjectOf(lib, b).Some?
      && exists key :: ShareIdentifier(lib, key, ObjectOf(lib, a).value, ObjectOf(lib, b).value)
  {
    var x, y := ObjectOf(lib, a).GetOr(map[]), ObjectOf(lib, b).GetOr(map[]);
    if id :| id in IdsOf(lib, a) && id in IdsOf(lib, b) {
      var k :| k in x && IsIdField(lib, x, k) && id == ObjectId(k, x[k]);
      var l :| l in y && IsIdField(lib, y, l) && id == ObjectId(l, y[l]);
      SameIdExactly(k, x[k], l, y[l]);
      assert ShareIdentifier(lib, k, x, y);
    }
    if ObjectOf(lib, a).Some? && ObjectOf(lib, b).Some? {
      if key :| ShareIdentifier(lib, key, x, y) {
        var text :| Spells(text, x[key]) && Spells(text, y[key]);
        RenderSpells(x[key], text);
        RenderSpells(y[key], text);
        SameIdExactly(key, x[key], key, y[key]);
        assert IsIdField(lib, x, key) && IsIdField(lib, y, key);
        assert ObjectId(key, x[key]) in IdsOf(lib, a) && ObjectId(key, y[key]) in IdsOf(lib, b);
      }
    }
  }

  // ---------------------------------------------------------------- the verdict

  datatype Status = Verified | Candidate | Rejected

  datatype Reason =
    | SameCredentials | NoSuccessfulResponse | ResourceNotMatched | NotStable | NoImpactField | Reproduced

  datatype Verdict = Verdict(status: Status, reason: Reason, impactFields: seq<string>)

  predicate Success(status: int) { 200 <= status < 300 }

  predicate SameBehaviour(a: ResponseSignature, b: ResponseSignature) {
    a.status == b.status && (a.bodyDigest == b.bodyDigest || a.normalizedDigest == b.normalizedDigest)
  }

  function FieldPool(lib: Library, impactFields: set<string>): set<string> {
    var requested := set f | f in impactFields :: lib.lower(f);
    if requested != {} then requested else lib.names.impact
  }

  /** The fields asked for, in lower case; when none are, the validator's own. */
  lemma FieldPoolExactly(lib: Library, impactFields: set<string>)
    ensures impactFields == {} ==> FieldPool(lib, impactFields) == lib.names.impact
    ensures impactFields != {} ==>
      forall name :: name in FieldPool(lib, impactFields) <==> exists f :: f in impactFields && lib.lower(f) == name
  {
    var requested := set f | f in impactFields :: lib.lower(f);
    if impactFields != {} {
      var f :| f in impactFields;
      assert lib.lower(f) in requested;
      assert FieldPool(lib, impactFields) == requested;
    }
  }

  function ObservedImpact(lib: Library, pool: set<string>, sig: ResponseSignature): seq<string> {
    SortSet(set f | f in sig.fields && lib.lower(f) in pool)
  }

  /** The four signatures in the order in which the responses were taken. */
  function Decide(lib: Library, pool: set<string>,
                  owner: ResponseSignature, subject: ResponseSignature,
                  ownerAgain: ResponseSignature, subjectAgain: ResponseSignature): Verdict
  {
    var impact := ObservedImpact(lib, pool, subject);
    if !Success(owner.status) || !Success(subject.status) then Verdict(Rejected, NoSuccessfulResponse, impact)
    else if owner.objectIds * subject.objectIds == {} then Verdict(Candidate, ResourceNotMatched, impact)
    else if !SameBehaviour(subject, subjectAgain) || !SameBehaviour(owner, ownerAgain) then
      Verdict(Candidate, NotStable, impact)
    else if impact == [] then Verdict(Candidate, NoImpactField, impact)
    else Verdict(Verified, Reproduced, impact)
  }

  /** owner, subject, owner again, subject again */
  datatype Four = Four(owner: HttpResponse, subject: HttpResponse, ownerAgain: HttpResponse, subjectAgain: HttpResponse)
  {
    ghost function All(): set<HttpResponse> { {owner, subject, ownerAgain, subjectAgain} }
  }

  function Judge(lib: Library, pool: set<string>, f: Four): Verdict {
    Decide(lib, pool, SignatureOf(lib, f.owner), SignatureOf(lib, f.subject),
           SignatureOf(lib, f.ownerAgain), SignatureOf(lib, f.subjectAgain))
  }

  // ---------------------------------------------------------------- stability

  /** The digests tell these two responses apart whenever they differ. */
  ghost predicate Distinguished(lib: Library, a: HttpResponse, b: HttpResponse) {
    && (lib.bodyDigest(a.body) == lib.bodyDigest(b.body) ==> a.body == b.body)
    && (lib.textDigest(Print(NormalForm(lib, a))) == lib.textDigest(Print(NormalForm(lib, b))) ==>
          Print(NormalForm(lib, a)) == Print(NormalForm(lib, b)))
  }

  ghost predicate NoCollisions(lib: Library, rs: set<HttpResponse>) {
    forall a, b :: a in rs && b in rs ==> Distinguished(lib, a, b)
  }

  ghost predicate SameContent(lib: Library, a: HttpResponse, b: HttpResponse) {
    a.status == b.status && NormalForm(lib, a) == NormalForm(lib, b)
  }

  /** One content: neither response is an object, or their objects differ in volatile fields alone. */
  lemma SameContentExactly(lib: Library, a: HttpResponse, b: HttpResponse)
    ensures SameContent(lib, a, b) <==>
      && a.status == b.status
      && (ObjectOf(lib, a).Some? <==> ObjectOf(lib, b).Some?)
      && (ObjectOf(lib, a).Some? ==> AgreeBeyondVolatile(lib, ObjectOf(lib, a).value, ObjectOf(lib, b).value))
  {
    if ObjectOf(lib, a).Some? && ObjectOf(lib, b).Some? {
      var x, y := ObjectOf(lib, a).value, ObjectOf(lib, b).value;
      var f, g := Normalized(lib, x), Normalized(lib, y);
      if AgreeBeyondVolatile(lib, x, y) {
        assert forall key :: key in f <==> key in g;
        assert f == g;
      }
      if f == g {
        assert forall key :: lib.lower(key) !in lib.names.volatile ==>
          (key in x <==> key in f) && (key in y <==> key in g);
      }
    }
  }

  ghost predicate AgreeBeyondVolatile(lib: Library, a: map<string, Json>, b: map<string, Json>) {
    forall key :: lib.lower(key) !in lib.names.volatile ==>
      (key in a <==> key in b) && (key in a ==> a[key] == b[key])
  }

  lemma NormalFormWellFormed(lib: Library, r: HttpResponse)
    requires lib.Valid()
    ensures WellFormed(NormalForm(lib, r))
  {
  }

  /** The two-way test on digests is equality of status and normal form. */
  lemma StableIsSameContent(lib: Library, a: HttpResponse, b: HttpResponse)
    requires lib.Valid() && Distinguished(lib, a, b)
    ensures SameBehaviour(SignatureOf(lib, a), SignatureOf(lib, b)) <==> SameContent(lib, a, b)
  {
    if lib.textDigest(Print(NormalForm(lib, a))) == lib.textDigest(Print(NormalForm(lib, b))) {
      NormalFormWellFormed(lib, a);
      NormalFormWellFormed(lib, b);
      PrintInjective(NormalForm(lib, a), NormalForm(lib, b));
    }
  }

  /** Hence it is an equivalence relation on responses. */
  lemma StableIsEquivalence(lib: Library, a: HttpResponse, b: HttpResponse, c: HttpResponse)
    requires lib.Valid() && NoCollisions(lib, {a, b, c})
    ensures var same := (x: HttpResponse, y: HttpResponse) => SameBehaviour(SignatureOf(lib, x), SignatureOf(lib, y));
      && same(a, a)
      && (same(a, b) ==> same(b, a))
      && (same(a, b) && same(b, c) ==> same(a, c))
  {
    StableIsSameContent(lib, a, b);
    StableIsSameContent(lib, b, c);
    StableIsSameContent(lib, a, c);
  }

  // ---------------------------------------------------------------- what "verified" means

  /** Identifier fields are never volatile, so they survive normalisation. */
  lemma SameContentSameIds(lib: Library, a: HttpResponse, b: HttpResponse)
    requires lib.Valid() && SameContent(lib, a, b)
    ensures IdsOf(lib, a) == IdsOf(lib, b)
  {
    IdsOfNormalized(lib, ObjectOf(lib, a).GetOr(map[]));
    IdsOfNormalized(lib, ObjectOf(lib, b).GetOr(map[]));
  }

  lemma IdsOfNormalized(lib: Library, fields: map<string, Json>)
    requires lib.Valid()
    ensures ObjectIds(lib, fields) == ObjectIds(lib, Normalized(lib, fields))
  {
    var kept := Normalized(lib, fields);
    assert forall key :: IsIdField(lib, fields, key) <==> IsIdField(lib, kept, key);
  }

  /** The condition for "verified", in terms of the responses themselves. */
  ghost predicate IndependentlyReproduced(lib: Library, pool: set<string>, f: Four) {
    && 200 <= f.owner.status < 300 && 200 <= f.subject.status < 300
    && SameContent(lib, f.owner, f.ownerAgain) && SameContent(lib, f.subject, f.subjectAgain)
    && (exists id :: id in IdsOf(lib, f.owner) && id in IdsOf(lib, f.subject))
    && (exists field :: field in FieldsOf(lib, f.subject) && lib.lower(field) in pool)
  }

  lemma ImpactIsFound(lib: Library, pool: set<string>, sig: ResponseSignature)
    ensures forall f :: f in ObservedImpact(lib, pool, sig) <==> f in sig.fields && lib.lower(f) in pool
    ensures ObservedImpact(lib, pool, sig) != [] <==> exists f :: f in sig.fields && lib.lower(f) in pool
  {
    var impact := ObservedImpact(lib, pool, sig);
    assert impact != [] ==> impact[0] in impact;
  }

  /** The requirements in the order in which they are tried; each one but the last has a reason for failing it. */
  ghost predicate Requirement(lib: Library, pool: set<string>, f: Four, reason: Reason) {
    match reason
    case NoSuccessfulResponse => 200 <= f.owner.status < 300 && 200 <= f.subject.status < 300
    case ResourceNotMatched => exists id :: id in IdsOf(lib, f.owner) && id in IdsOf(lib, f.subject)
    case NotStable => SameContent(lib, f.owner, f.ownerAgain) && SameContent(lib, f.subject, f.subjectAgain)
    case NoImpactField => exists field :: field in FieldsOf(lib, f.subject) && lib.lower(field) in pool
    case _ => true
  }

  const REQUIREMENTS := [NoSuccessfulResponse, ResourceNotMatched, NotStable, NoImpactField]

  /** Position of the first requirement that the responses fail; 4 when they meet all. */
  ghost function FirstFailed(lib: Library, pool: set<string>, f: Four): nat {
    if !Requirement(lib, pool, f, REQUIREMENTS[0]) then 0
    else if !Requirement(lib, pool, f, REQUIREMENTS[1]) then 1
    else if !Requirement(lib, pool, f, REQUIREMENTS[2]) then 2
    else if !Requirement(lib, pool, f, REQUIREMENTS[3]) then 3
    else 4
  }

  /** The tests on signatures are those requirements on responses. */
  lemma TestsMeanRequirements(lib: Library, pool: set<string>, f: Four)
    requires lib.Valid() && NoCollisions(lib, f.All())
    ensures var o, s := SignatureOf(lib, f.owner), SignatureOf(lib, f.subject);
      && (o.objectIds * s.objectIds != {} <==> Requirement(lib, pool, f, ResourceNotMatched))
      && (SameBehaviour(s, SignatureOf(lib, f.subjectAgain)) && SameBehaviour(o, SignatureOf(lib, f.ownerAgain)) <==>
            Requirement(lib, pool, f, NotStable))
      && (ObservedImpact(lib, pool, s) != [] <==> Requirement(lib, pool, f, NoImpactField))
  {
    assert Distinguished(lib, f.owner, f.ownerAgain) && Distinguished(lib, f.subject, f.subjectAgain);
    StableIsSameContent(lib, f.owner, f.ownerAgain);
    StableIsSameContent(lib, f.subject, f.subjectAgain);
    var o, s := SignatureOf(lib, f.owner), SignatureOf(lib, f.subject);
    ImpactIsFound(lib, pool, s);
    assert forall id :: id in o.objectIds * s.objectIds <==> id in IdsOf(lib, f.owner) && id in IdsOf(lib, f.subject);
  }

  /** A verdict that is not "verified" names the first requirement that failed; without success it is a rejection. */
  lemma ReasonIsFirstFailure(lib: Library, pool: set<string>, f: Four)
    requires lib.Valid() && NoCollisions(lib, f.All())
    ensures var k, verdict := FirstFailed(lib, pool, f), Judge(lib, pool, f);
      && verdict.reason == (if k < 4 then REQUIREMENTS[k] else Reproduced)
      && verdict.status == (if k == 0 then Rejected else if k < 4 then Candidate else Verified)
  {
    TestsMeanRequirements(lib, pool, f);
  }

  lemma VerifiedExactly(lib: Library, pool: set<string>, f: Four)
    requires lib.Valid() && NoCollisions(lib, f.All())
    ensures Judge(lib, pool, f).status == Verified <==> IndependentlyReproduced(lib, pool, f)
  {
    TestsMeanRequirements(lib, pool, f);
  }

  /**
   * All four responses are successful JSON objects, one object id occurs in each of them, and every field of the
   * subject's response but a volatile one came back with the same value in its reproduction.
   */
  ghost predicate ReachesAllFour(lib: Library, f: Four) {
    && (forall r :: r in f.All() ==> 200 <= r.status < 300 && ObjectOf(lib, r).Some?)
    && (exists id ::
          && id in IdsOf(lib, f.owner) && id in IdsOf(lib, f.subject)
          && id in IdsOf(lib, f.ownerAgain) && id in IdsOf(lib, f.subjectAgain))
    && (forall field :: field in FieldsOf(lib, f.subject) && lib.lower(field) !in lib.names.volatile ==>
          && field in FieldsOf(lib, f.subjectAgain)
          && ObjectOf(lib, f.subject).value[field] == ObjectOf(lib, f.subjectAgain).value[field])
  }

  lemma ReproducedField(lib: Library, a: HttpResponse, b: HttpResponse, key: string)
    requires SameContent(lib, a, b) && ObjectOf(lib, a).Some? && ObjectOf(lib, b).Some?
    requires key in ObjectOf(lib, a).value && lib.lower(key) !in lib.names.volatile
    ensures key in ObjectOf(lib, b).value && ObjectOf(lib, b).value[key] == ObjectOf(lib, a).value[key]
  {
    assert key in Normalized(lib, ObjectOf(lib, a).value);
    assert key in Normalized(lib, ObjectOf(lib, b).value);
  }

  lemma ReproducedObjects(lib: Library, a: HttpResponse, b: HttpResponse)
    requires SameContent(lib, a, b) && ObjectOf(lib, a).Some?
    ensures ObjectOf(lib, b).Some?
  {
  }

  lemma ReproducedIds(lib: Library, pool: set<string>, f: Four)
    requires lib.Valid() && IndependentlyReproduced(lib, pool, f)
    ensures exists id ::
      && id in IdsOf(lib, f.owner) && id in IdsOf(lib, f.subject)
      && id in IdsOf(lib, f.ownerAgain) && id in IdsOf(lib, f.subjectAgain)
  {
    SameContentSameIds(lib, f.owner, f.ownerAgain);
    SameContentSameIds(lib, f.subject, f.subjectAgain);
    var id :| id in IdsOf(lib, f.owner) && id in IdsOf(lib, f.subject);
    assert id in IdsOf(lib, f.ownerAgain) && id in IdsOf(lib, f.subjectAgain);
  }

  lemma ReproducedReachesAllFour(lib: Library, pool: set<string>, f: Four)
    requires lib.Valid() && IndependentlyReproduced(lib, pool, f)
    ensures ReachesAllFour(lib, f)
  {
    ReproducedIds(lib, pool, f);
    ReproducedObjects(lib, f.owner, f.ownerAgain);
    ReproducedObjects(lib, f.subject, f.subjectAgain);
    forall field | field in FieldsOf(lib, f.subject) && lib.lower(field) !in lib.names.volatile
      ensures field in FieldsOf(lib, f.subjectAgain)
      ensures ObjectOf(lib, f.subject).value[field] == ObjectOf(lib, f.subjectAgain).value[field]
    {
      ReproducedField(lib, f.subject, f.subjectAgain, field);
    }
  }

  /** The impact fields of a verdict are the subject's top-level fields that the pool asks for. */
  lemma JudgedImpact(lib: Library, pool: set<string>, f: Four)
    ensures forall field :: field in Judge(lib, pool, f).impactFields <==>
      field in FieldsOf(lib, f.subject) && lib.lower(field) in pool
    ensures StrictlySorted(Judge(lib, pool, f).impactFields)
  {
    ImpactIsFound(lib, pool, SignatureOf(lib, f.subject));
  }

  /**
   * The owner's and the subject's responses name one identifier in one field, and each of them named the same value
   * there when it was asked again.
   */
  ghost predicate OneIdentifier(lib: Library, f: Four)
    requires ReachesAllFour(lib, f)
  {
    exists key :: IdentifiesAll(lib, f, key)
  }

  ghost predicate IdentifiesAll(lib: Library, f: Four, key: string)
    requires ReachesAllFour(lib, f)
  {
    var owner, subject := ObjectOf(lib, f.owner).value, ObjectOf(lib, f.subject).value;
    var ownerAgain, subjectAgain := ObjectOf(lib, f.ownerAgain).value, ObjectOf(lib, f.subjectAgain).value;
    && ShareIdentifier(lib, key, owner, subject)
    && key in ownerAgain && ownerAgain[key] == owner[key]
    && key in subjectAgain && subjectAgain[key] == subject[key]
  }

  lemma ReproducedIdentifier(lib: Library, pool: set<string>, f: Four)
    requires lib.Valid() && PlainNames(lib) && IndependentlyReproduced(lib, pool, f) && ReachesAllFour(lib, f)
    ensures OneIdentifier(lib, f)
  {
    SharedIdExactly(lib, f.owner, f.subject);
    var key :| ShareIdentifier(lib, key, ObjectOf(lib, f.owner).value, ObjectOf(lib, f.subject).value);
    assert f.owner in f.All() && f.subject in f.All() && f.ownerAgain in f.All() && f.subjectAgain in f.All();
    ReproducedField(lib, f.owner, f.ownerAgain, key);
    ReproducedField(lib, f.subject, f.subjectAgain, key);
    assert IdentifiesAll(lib, f, key);
  }

  /** What a "verified" verdict says about all four responses, and about the impact fields it reports. */
  lemma VerifiedReachesAllFour(lib: Library, pool: set<string>, f: Four)
    requires lib.Valid() && NoCollisions(lib, f.All())
    requires Judge(lib, pool, f).status == Verified
    ensures ReachesAllFour(lib, f)
    ensures PlainNames(lib) ==> OneIdentifier(lib, f)
    ensures forall field :: field in Judge(lib, pool, f).impactFields ==>
      lib.lower(field) in pool && (lib.lower(field) !in lib.names.volatile ==> field in FieldsOf(lib, f.subjectAgain))
  {
    assert ReachesAllFour(lib, f) by {
      VerifiedExactly(lib, pool, f);
      ReproducedReachesAllFour(lib, pool, f);
    }
    if PlainNames(lib) {
      VerifiedExactly(lib, pool, f);
      ReproducedIdentifier(lib, pool, f);
    }
    JudgedImpact(lib, pool, f);
  }

  // ---------------------------------------------------------------- volatile fields

  /** Two responses that are JSON objects, alike but for their volatile top-level fields. */
  ghost predicate DifferOnlyInVolatile(lib: Library, a: HttpResponse, b: HttpResponse) {
    && a.status == b.status
    && ObjectOf(lib, a).Some? && ObjectOf(lib, b).Some?
    && Normalized(lib, ObjectOf(lib, a).value) == Normalized(lib, ObjectOf(lib, b).value)
  }

  ghost predicate FourDifferOnlyInVolatile(lib: Library, f: Four, g: Four) {
    && DifferOnlyInVolatile(lib, f.owner, g.owner) && DifferOnlyInVolatile(lib, f.subject, g.subject)
    && DifferOnlyInVolatile(lib, f.ownerAgain, g.ownerAgain)
    && DifferOnlyInVolatile(lib, f.subjectAgain, g.subjectAgain)
  }

  lemma ImpactOfNormalized(lib: Library, pool: set<string>, a: HttpResponse, b: HttpResponse)
    requires DifferOnlyInVolatile(lib, a, b) && pool !! lib.names.volatile
    ensures ObservedImpact(lib, pool, SignatureOf(lib, a)) == ObservedImpact(lib, pool, SignatureOf(lib, b))
  {
    var x, y := ObjectOf(lib, a).value, ObjectOf(lib, b).value;
    forall field ensures field in x && lib.lower(field) in pool <==> field in y && lib.lower(field) in pool {
      assert lib.lower(field) in pool ==> (field in x <==> field in Normalized(lib, x));
      assert lib.lower(field) in pool ==> (field in y <==> field in Normalized(lib, y));
    }
    var s, t := SignatureOf(lib, a), SignatureOf(lib, b);
    assert (set f | f in s.fields && lib.lower(f) in pool) == (set f | f in t.fields && lib.lower(f) in pool);
  }

  /** Volatile fields can come, go and change without moving the verdict. */
  lemma VolatileFieldsIrrelevant(lib: Library, pool: set<string>, f: Four, g: Four)
    requires lib.Valid() && NoCollisions(lib, f.All()) && NoCollisions(lib, g.All())
    requires pool !! lib.names.volatile && FourDifferOnlyInVolatile(lib, f, g)
    ensures Judge(lib, pool, f) == Judge(lib, pool, g)
  {
    StableIsSameContent(lib, f.owner, f.ownerAgain);
    StableIsSameContent(lib, f.subject, f.subjectAgain);
    StableIsSameContent(lib, g.owner, g.ownerAgain);
    StableIsSameContent(lib, g.subject, g.subjectAgain);
    SameContentSameIds(lib, f.owner, g.owner);
    SameContentSameIds(lib, f.subject, g.subject);
    ImpactOfNormalized(lib, pool, f.subject, g.subject);
  }

  /** No choice of volatile fields can move a verdict that uses this pool, whatever the library calls return. */
  ghost predicate IgnoresVolatile(names: FieldNames, pool: set<string>) {
    forall lib: Library, f: Four, g: Four ::
      && lib.names == names && lib.Valid()
      && NoCollisions(lib, f.All()) && NoCollisions(lib, g.All()) && FourDifferOnlyInVolatile(lib, f, g) ==>
      Judge(lib, pool, f) == Judge(lib, pool, g)
  }

  /** The same response, four times over. */
  function Same(r: HttpResponse): Four { Four(r, r, r, r) }

  /** Two JSON objects of one status, the second with one field more. */
  ghost predicate OneFieldMore(lib: Library, plain: HttpResponse, marked: HttpResponse, field: string) {
    && plain.status == marked.status && ObjectOf(lib, plain).Some? && ObjectOf(lib, marked).Some?
    && var x, y := ObjectOf(lib, plain).value, ObjectOf(lib, marked).value;
      field !in x && field in y && y == x[field := y[field]]
  }

  lemma SameIsDistinguished(lib: Library, r: HttpResponse)
    ensures Same(r).All() == {r} && NoCollisions(lib, Same(r).All())
  {
  }

  lemma MarkIsDropped(lib: Library, plain: HttpResponse, marked: HttpResponse, field: string)
    requires OneFieldMore(lib, plain, marked, field) && lib.lower(field) in lib.names.volatile
    ensures FourDifferOnlyInVolatile(lib, Same(plain), Same(marked))
  {
    var x, y := ObjectOf(lib, plain).value, ObjectOf(lib, marked).value;
    assert Normalized(lib, x) == Normalized(lib, y);
  }

  /**
   * With a volatile field in the pool, two responses that differ in just that field are judged differently, whatever
   * the library: the field is reported for the one and not for the other.
   */
  lemma VolatileFieldShows(lib: Library, pool: set<string>, plain: HttpResponse, marked: HttpResponse, field: string)
    requires OneFieldMore(lib, plain, marked, field)
    requires lib.lower(field) in lib.names.volatile && lib.lower(field) in pool
    ensures FourDifferOnlyInVolatile(lib, Same(plain), Same(marked))
    ensures field !in Judge(lib, pool, Same(plain)).impactFields && field in Judge(lib, pool, Same(marked)).impactFields
  {
    MarkIsDropped(lib, plain, marked, field);
    JudgedImpact(lib, pool, Same(plain));
    JudgedImpact(lib, pool, Same(marked));
  }

  /**
   * And it moves the status: successful responses about one object, without another impact field, become "verified".
   */
  lemma VolatileFieldVerifies(lib: Library, pool: set<string>, plain: HttpResponse, marked: HttpResponse, field: string)
    requires lib.Valid() && OneFieldMore(lib, plain, marked, field)
    requires lib.lower(field) in lib.names.volatile && lib.lower(field) in pool
    requires Success(plain.status) && IdsOf(lib, plain) != {}
    requires forall other :: other in FieldsOf(lib, plain) ==> lib.lower(other) !in pool
    ensures Judge(lib, pool, Same(plain)).status == Candidate && Judge(lib, pool, Same(marked)).status == Verified
  {
    MarkIsDropped(lib, plain, marked, field);
    SameContentSameIds(lib, plain, marked);
    assert field in FieldsOf(lib, marked);
    JudgedAlone(lib, pool, plain);
    JudgedAlone(lib, pool, marked);
  }

  /** The verdict on one successful response with an id, seen four times, hangs on its impact fields alone. */
  lemma JudgedAlone(lib: Library, pool: set<string>, r: HttpResponse)
    requires lib.Valid() && Success(r.status) && IdsOf(lib, r) != {}
    ensures var shown := exists field :: field in FieldsOf(lib, r) && lib.lower(field) in pool;
      Judge(lib, pool, Same(r)).status == if shown then Verified else Candidate
  {
    var sig := SignatureOf(lib, r);
    assert Judge(lib, pool, Same(r)) == Decide(lib, pool, sig, sig, sig, sig);
    assert sig.objectIds * sig.objectIds == sig.objectIds;
    ImpactIsFound(lib, pool, sig);
  }

  /** A library whose `loads` knows two objects, one of them empty; the digests are the identity. */
  function TwoObjects(names: FieldNames, v: string): Library {
    Library(names, s => s, (b: Bytes) => Some(Obj(if b == [] then map[] else map[v := Null])), b => b, s => s)
  }

  lemma TwoObjectsDiffer(names: FieldNames, v: string)
    requires names.id !! names.volatile
    ensures var lib := TwoObjects(names, v);
      lib.Valid() && OneFieldMore(lib, HttpResponse(200, []), HttpResponse(200, [0]), v)
  {
  }

  /** One volatile field in the pool is enough for a volatile field to show up in the verdict. */
  lemma VolatilePoolLeaks(names: FieldNames, v: string, pool: set<string>)
    requires names.id !! names.volatile && v in pool && v in names.volatile
    ensures !IgnoresVolatile(names, pool)
  {
    var lib, plain, marked := TwoObjects(names, v), HttpResponse(200, []), HttpResponse(200, [0]);
    TwoObjectsDiffer(names, v);
    SameIsDistinguished(lib, plain);
    SameIsDistinguished(lib, marked);
    VolatileFieldShows(lib, pool, plain, marked, v);
    assert Judge(lib, pool, Same(plain)) != Judge(lib, pool, Same(marked));
  }

  /** The pools for which volatile fields never matter are exactly those without a volatile field. */
  lemma IgnoresVolatileExactly(names: FieldNames, pool: set<string>)
    requires names.id !! names.volatile
    ensures IgnoresVolatile(names, pool) <==> pool !! names.volatile
  {
    if pool !! names.volatile {
      forall lib: Library, f: Four, g: Four |
        && lib.names == names && lib.Valid()
        && NoCollisions(lib, f.All()) && NoCollisions(lib, g.All()) && FourDifferOnlyInVolatile(lib, f, g)
        ensures Judge(lib, pool, f) == Judge(lib, pool, g)
      {
        VolatileFieldsIrrelevant(lib, pool, f, g);
      }
    } else {
      var v :| v in pool && v in names.volatile;
      VolatilePoolLeaks(names, v, pool);
    }
  }

  /** A library that reads the same object, with an id and one more field, in every body. */
  function OneObject(names: FieldNames, idField: string, field: string): Library {
    Library(names, s => s, (b: Bytes) => Some(Obj(map[idField := Int(1), field := Null])), b => b, s => s)
  }

  lemma OneObjectIsValid(names: FieldNames, idField: string, field: string, r: HttpResponse)
    requires names.id !! names.volatile && idField in names.id && idField != field
    ensures var lib := OneObject(names, idField, field);
      && lib.Valid() && NoCollisions(lib, {r})
      && ObjectId(idField, Int(1)) in IdsOf(lib, r) && field in FieldsOf(lib, r)
  {
    var lib := OneObject(names, idField, field);
    var fields := ObjectOf(lib, r).value;
    assert IsIdField(lib, fields, idField);
  }

  /** "Verified" can be reached with any field names that leave room for an id and another impact field. */
  lemma VerifiedIsReachable(names: FieldNames, pool: set<string>, idField: string, field: string)
    requires names.id !! names.volatile && idField in names.id && field in pool && idField != field
    ensures exists lib: Library, f: Four ::
      lib.names == names && lib.Valid() && NoCollisions(lib, f.All()) && Judge(lib, pool, f).status == Verified
  {
    var lib, r := OneObject(names, idField, field), HttpResponse(200, []);
    var f := Four(r, r, r, r);
    OneObjectIsValid(names, idField, field, r);
    assert f.All() == {r};
    VerifiedExactly(lib, pool, f);
    assert IndependentlyReproduced(lib, pool, f);
  }

  /** Length and first letter tell a volatile name from the others. */
  predicate VolatileShape(name: string) {
    || (|name| == 10 && (name[0] == 'c' || name[0] == 'u' || name[0] == 'r'))
    || (|name| == 9 && name[0] == 't')
    || (|name| == 8 && name[0] == 't')
    || (|name| == 5 && name[0] == 'n')
  }

  /** And an identifier's name from an impact field's. */
  predicate IdShape(name: string) {
    || |name| == 2
    || ((|name| == 4 || |name| == 7) && name[0] == 'u')
    || (|name| == 10 && name[0] == 'a')
    || ((|name| == 8 || |name| == 9) && name[0] == 'o')
    || (|name| == 11 && name[0] == 'r')
  }

  lemma ShapesSeparate()
    ensures forall name :: name in FIELD_NAMES.volatile ==> VolatileShape(name)
    ensures forall name :: name in FIELD_NAMES.id ==> IdShape(name) && !VolatileShape(name)
    ensures forall name :: name in FIELD_NAMES.impact ==> !IdShape(name) && !VolatileShape(name)
  {
  }

  /**
   * The three sets of names are kept apart, so every result above applies and the default pool ignores volatile fields.
   */
  lemma FieldNamesAreSeparate()
    ensures FIELD_NAMES.id !! FIELD_NAMES.volatile
    ensures FIELD_NAMES.impact !! FIELD_NAMES.volatile
    ensures FIELD_NAMES.id !! FIELD_NAMES.impact
    ensures IgnoresVolatile(FIELD_NAMES, FIELD_NAMES.impact)
  {
    ShapesSeparate();
    var names := FIELD_NAMES;
    Separate(names.volatile, names.id, VolatileShape);
    Separate(names.volatile, names.impact, VolatileShape);
    Separate(names.id, names.impact, IdShape);
    IgnoresVolatileExactly(names, names.impact);
  }

  /** The names in use: what identifies an object, what shows impact, and what is expected to change. */
  lemma FieldNamesExactly(name: string)
    ensures name in FIELD_NAMES.id <==>
      name in ["id", "uuid", "user_id", "account_id", "order_id", "object_id", "resource_id"]
    ensures name in FIELD_NAMES.impact <==>
      name in ["address", "balance", "customer_id", "document", "document_url", "email", "internal_id", "owner",
               "payment", "phone", "phone_number", "role", "secret", "ssn"]
    ensures name in FIELD_NAMES.volatile <==>
      name in ["created_at", "updated_at", "timestamp", "request_id", "trace_id", "nonce"]
  {
  }

  /** The names in use are plain as soon as lower-casing keeps an equals sign. */
  lemma IdNamesArePlain(lib: Library)
    requires lib.names == FIELD_NAMES && forall s: string :: '=' in s ==> '=' in lib.lower(s)
    ensures PlainNames(lib)
  {
    assert forall name :: name in FIELD_NAMES.id ==> '=' !in name;
  }

  lemma Separate(a: set<string>, b: set<string>, shape: string -> bool)
    requires (forall x :: x in a ==> shape(x)) && (forall x :: x in b ==> !shape(x))
    ensures a !! b
  {
  }
}
