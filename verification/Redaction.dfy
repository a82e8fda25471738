/** What evidence keeps of bodies and headers: `_redact_json`, `redact_body_preview`, `redact_headers`. */
module Redaction {
  import opened Text
  import opened Json
  import opened JsonReading

  const REDACTED := "[REDACTED]"

  const SENSITIVE_BODY_KEYS := {
    "access_token", "api_key", "apikey", "authorization", "cookie", "csrf", "password", "secret", "session",
    "signature", "token" }

  /** The library calls of a preview: lower-casing, decoding, `json.loads`, and the two regular-expression scrubbers. */
  datatype Previewer = Previewer(
    lower: string -> string,
    decode: Bytes -> string,
    loads: string -> Option<Doc>,
    scrubTokens: string -> string,
    scrubAssignments: string -> string)
  {
    predicate IsSensitive(key: string) { lower(key) in SENSITIVE_BODY_KEYS }
  }

  /** The keys beneath which nothing is shown. */
  lemma SensitiveExactly(p: Previewer, key: string)
    ensures p.IsSensitive(key) <==>
      p.lower(key) in ["access_token", "api_key", "apikey", "authorization", "cookie", "csrf", "password", "secret",
                       "session", "signature", "token"]
  {
  }

  function RedactJson(p: Previewer, value: Json): Json
    decreases value
  {
    match value
    case Obj(fields) =>
      Obj(map k | k in fields :: if p.IsSensitive(k) then Str(REDACTED) else RedactJson(p, fields[k]))
    case Arr(items) => Arr(seq(|items|, i requires 0 <= i < |items| => RedactJson(p, items[i])))
    case _ => value
  }

  /** Alike except beneath sensitive keys, at any depth: same shape, same keys, same plain values. */
  ghost predicate AlikeOutsideSecrets(p: Previewer, a: Json, b: Json)
    decreases a
  {
    match (a, b)
    case (Obj(f), Obj(g)) =>
      f.Keys == g.Keys && forall k | k in f :: p.IsSensitive(k) || AlikeOutsideSecrets(p, f[k], g[k])
    case (Arr(x), Arr(y)) => |x| == |y| && forall i | 0 <= i < |x| :: AlikeOutsideSecrets(p, x[i], y[i])
    case _ => a == b
  }

  /** Two values redact to the same value exactly when they are alike outside their secrets. */
  lemma {:induction false} RedactsAlike(p: Previewer, a: Json, b: Json)
    ensures RedactJson(p, a) == RedactJson(p, b) <==> AlikeOutsideSecrets(p, a, b)
    decreases a
  {
    match (a, b)
    case (Obj(f), Obj(g)) =>
      var x, y := RedactJson(p, a).fields, RedactJson(p, b).fields;
      assert x.Keys == f.Keys && y.Keys == g.Keys;
      forall k | k in f && k in g && !p.IsSensitive(k) ensures x[k] == y[k] <==> AlikeOutsideSecrets(p, f[k], g[k]) {
        RedactsAlike(p, f[k], g[k]);
      }
      assert x == y <==> x.Keys == y.Keys && forall k | k in x :: x[k] == y[k];
    case (Arr(s), Arr(t)) =>
      var x, y := RedactJson(p, a).items, RedactJson(p, b).items;
      forall i | 0 <= i < |s| && i < |t| ensures x[i] == y[i] <==> AlikeOutsideSecrets(p, s[i], t[i]) {
        RedactsAlike(p, s[i], t[i]);
      }
      assert x == y <==> |x| == |y| && forall i | 0 <= i < |x| :: x[i] == y[i];
    case _ =>
  }

  /** A redacted value is alike to its original, so redacting twice is redacting once. */
  lemma {:induction false} RedactedIsAlike(p: Previewer, value: Json)
    ensures AlikeOutsideSecrets(p, RedactJson(p, value), value)
    decreases value
  {
    match value
    case Obj(fields) =>
      var redacted := RedactJson(p, value).fields;
      forall k | k in fields && !p.IsSensitive(k) ensures AlikeOutsideSecrets(p, redacted[k], fields[k]) {
        RedactedIsAlike(p, fields[k]);
      }
    case Arr(items) =>
      forall i | 0 <= i < |items| ensures AlikeOutsideSecrets(p, RedactJson(p, value).items[i], items[i]) {
        RedactedIsAlike(p, items[i]);
      }
    case _ =>
  }

  lemma {:induction false} RedactIdempotent(p: Previewer, value: Json)
    ensures RedactJson(p, RedactJson(p, value)) == RedactJson(p, value)
  {
    RedactedIsAlike(p, value);
    RedactsAlike(p, RedactJson(p, value), value);
  }

  /** The steps from the top of a value down to one of its parts. */
  datatype Step = Key(k: string) | Index(i: nat)

  predicate Reaches(value: Json, path: seq<Step>) {
    path == [] ||
    match (value, path[0])
    case (Obj(fields), Key(k)) => k in fields && Reaches(fields[k], path[1..])
    case (Arr(items), Index(i)) => i < |items| && Reaches(items[i], path[1..])
    case _ => false
  }

  function At(value: Json, path: seq<Step>): Json
    requires Reaches(value, path)
  {
    if path == [] then value
    else match path[0]
      case Key(k) => At(value.fields[k], path[1..])
      case Index(i) => At(value.items[i], path[1..])
  }

  predicate PassesSecret(p: Previewer, path: seq<Step>) {
    exists step <- path :: step.Key? && p.IsSensitive(step.k)
  }

  predicate EndsInSecret(p: Previewer, path: seq<Step>) {
    path != [] &&
    var last := path[|path| - 1];
    last.Key? && p.IsSensitive(last.k) && !PassesSecret(p, path[..|path| - 1])
  }

  /** Where a path leads after redaction: away from secrets nothing moves, and a secret is replaced by the marker. */
  lemma {:induction false} RedactKeepsStructure(p: Previewer, value: Json, path: seq<Step>)
    requires Reaches(value, path)
    ensures var redacted := RedactJson(p, value);
      && (!PassesSecret(p, path) ==> Reaches(redacted, path) && At(redacted, path) == RedactJson(p, At(value, path)))
      && (EndsInSecret(p, path) ==> Reaches(redacted, path) && At(redacted, path) == Str(REDACTED))
    decreases path
  {
    if path != [] {
      var rest := path[1..];
      assert path == [path[0]] + rest;
      if |path| > 1 {
        assert path[..|path| - 1] == [path[0]] + rest[..|rest| - 1];
        assert path[0] in path && path[0] in path[..|path| - 1];
      }
      assert forall step :: step in rest ==> step in path;
      match path[0]
      case Key(k) => RedactKeepsStructure(p, value.fields[k], rest);
      case Index(i) => RedactKeepsStructure(p, value.items[i], rest);
    }
  }

  // ---------------------------------------------------------------- documents, as they were read

  /** What `json.loads` returns, with the entries of each object in the order in which they were read. */
  datatype Doc = Leaf(value: Json) | List(items: seq<Doc>) | Dict(entries: seq<Entry>)

  datatype Entry = Entry(key: string, value: Doc)

  function KeysOf(entries: seq<Entry>): set<string> {
    set e | e in entries :: e.key
  }

  function IndexOf(entries: seq<Entry>, key: string): (i: nat)
    requires key in KeysOf(entries)
    ensures i < |entries| && entries[i].key == key
  {
    if entries[0].key == key then 0 else 1 + IndexOf(entries[1..], key)
  }

  /** The value of a document; the order of the entries is forgotten. */
  function Value(d: Doc): Json
    decreases d
  {
    match d
    case Leaf(value) => value
    case List(items) => Arr(seq(|items|, i requires 0 <= i < |items| => Value(items[i])))
    case Dict(entries) => Obj(map k | k in KeysOf(entries) :: Value(entries[IndexOf(entries, k)].value))
  }

  /** `_redact_json` keeps the entries in order. */
  function RedactDoc(p: Previewer, d: Doc): Doc
    decreases d
  {
    match d
    case Leaf(_) => d
    case List(items) => List(seq(|items|, i requires 0 <= i < |items| => RedactDoc(p, items[i])))
    case Dict(entries) => Dict(seq(|entries|, i requires 0 <= i < |entries| => RedactEntry(p, entries[i])))
  }

  function RedactEntry(p: Previewer, e: Entry): (r: Entry)
    ensures r.key == e.key
    decreases e
  {
    Entry(e.key, if p.IsSensitive(e.key) then Leaf(Str(REDACTED)) else RedactDoc(p, e.value))
  }

  /** Only plain values are leaves. */
  ghost predicate Proper(d: Doc)
    decreases d
  {
    match d
    case Leaf(value) => !value.Obj? && !value.Arr?
    case List(items) => forall i | 0 <= i < |items| :: Proper(items[i])
    case Dict(entries) => forall i | 0 <= i < |entries| :: Proper(entries[i].value)
  }

  lemma {:induction false} IndexKept(a: seq<Entry>, b: seq<Entry>, key: string)
    requires |a| == |b| && forall i :: 0 <= i < |a| ==> a[i].key == b[i].key
    ensures key in KeysOf(a) <==> key in KeysOf(b)
    ensures key in KeysOf(a) ==> IndexOf(a, key) == IndexOf(b, key)
  {
    KeysByIndex(a, key);
    KeysByIndex(b, key);
    if key in KeysOf(a) && a[0].key != key { IndexKept(a[1..], b[1..], key); }
  }

  lemma KeysByIndex(entries: seq<Entry>, key: string)
    ensures key in KeysOf(entries) <==> exists i :: 0 <= i < |entries| && entries[i].key == key
  {
    if i :| 0 <= i < |entries| && entries[i].key == key { assert entries[i] in entries; }
  }

  lemma EntriesKept(p: Previewer, d: Doc, k: string)
    requires d.Dict?
    ensures var redacted := RedactDoc(p, d).entries;
      && (k in KeysOf(redacted) <==> k in KeysOf(d.entries))
      && (k in KeysOf(redacted) ==>
            var i := IndexOf(redacted, k); i == IndexOf(d.entries, k) && redacted[i] == RedactEntry(p, d.entries[i]))
  {
    var redacted := RedactDoc(p, d).entries;
    assert forall i :: 0 <= i < |redacted| ==> redacted[i] == RedactEntry(p, d.entries[i]);
    IndexKept(d.entries, redacted, k);
  }

  lemma ValueAt(d: Doc, k: string)
    requires d.Dict? && k in KeysOf(d.entries)
    ensures Value(d).Obj? && k in Value(d).fields
    ensures Value(d).fields[k] == Value(d.entries[IndexOf(d.entries, k)].value)
  {
  }

  predicate RedactsAlong(p: Previewer, d: Doc) {
    Value(RedactDoc(p, d)) == RedactJson(p, Value(d))
  }

  lemma EntryRedacted(p: Previewer, d: Doc, k: string)
    requires d.Dict? && k in KeysOf(d.entries)
    requires RedactsAlong(p, d.entries[IndexOf(d.entries, k)].value)
    ensures k in Value(RedactDoc(p, d)).fields && k in RedactJson(p, Value(d)).fields
    ensures Value(RedactDoc(p, d)).fields[k] == RedactJson(p, Value(d)).fields[k]
  {
    EntriesKept(p, d, k);
    ValueAt(d, k);
    ValueAt(RedactDoc(p, d), k);
  }

  lemma RedactedKeys(p: Previewer, d: Doc)
    requires d.Dict?
    ensures Value(RedactDoc(p, d)).Obj? && RedactJson(p, Value(d)).Obj?
    ensures Value(RedactDoc(p, d)).fields.Keys == KeysOf(d.entries) == RedactJson(p, Value(d)).fields.Keys
  {
    forall k ensures k in Value(RedactDoc(p, d)).fields <==> k in KeysOf(d.entries) { EntriesKept(p, d, k); }
  }

  lemma EntriesRedacted(p: Previewer, d: Doc)
    requires d.Dict?
    requires forall i :: 0 <= i < |d.entries| ==> RedactsAlong(p, d.entries[i].value)
    ensures RedactsAlong(p, d)
  {
    var x, y := Value(RedactDoc(p, d)), RedactJson(p, Value(d));
    RedactedKeys(p, d);
    forall k | k in KeysOf(d.entries) ensures x.fields[k] == y.fields[k] { EntryRedacted(p, d, k); }
    assert x.fields == y.fields;
  }

  /** Redacting the document and redacting its value are the same thing. */
  lemma {:induction false} ValueOfRedacted(p: Previewer, d: Doc)
    requires Proper(d)
    ensures Value(RedactDoc(p, d)) == RedactJson(p, Value(d))
    decreases d
  {
    match d
    case Leaf(_) =>
    case List(items) =>
      forall i | 0 <= i < |items| ensures Value(RedactDoc(p, items[i])) == RedactJson(p, Value(items[i])) {
        ValueOfRedacted(p, items[i]);
      }
    case Dict(entries) =>
      forall i | 0 <= i < |entries| ensures RedactsAlong(p, entries[i].value) {
        ValueOfRedacted(p, entries[i].value);
      }
      EntriesRedacted(p, d);
  }

  // ---------------------------------------------------------------- sorted keys, plain characters

  /** `json.dumps(..., sort_keys=True, ensure_ascii=False)`: each object's entries in the order of their keys. */
  function Dump(d: Doc): string
    decreases d, 1, 0
  {
    match d
    case Leaf(value) => PrintIn(SPACED, value)
    case List(items) => "[" + (if items == [] then "]" else DumpItems(items))
    case Dict(entries) =>
      var keys := SortSet(KeysOf(entries));
      "{" + (if keys == [] then "}" else DumpEntries(d, keys))
  }

  function DumpItems(items: seq<Doc>): string
    requires items != []
    decreases items, 0, 0
  {
    Dump(items[0]) + (if |items| == 1 then "]" else ", " + DumpItems(items[1..]))
  }

  function DumpEntries(d: Doc, keys: seq<string>): string
    requires d.Dict? && keys != [] && forall k :: k in keys ==> k in KeysOf(d.entries)
    decreases d, 0, |keys|
  {
    Quote(SPACED, keys[0]) + (": " + (Dump(d.entries[IndexOf(d.entries, keys[0])].value) +
      (if |keys| == 1 then "}" else ", " + DumpEntries(d, keys[1..]))))
  }

  /** The text of a document is that of its value. */
  lemma {:induction false} DumpIsPrint(d: Doc)
    requires Proper(d)
    ensures Dump(d) == PrintIn(SPACED, Value(d))
    decreases d, 1, 0
  {
    match d
    case Leaf(_) =>
    case List(items) =>
      if items != [] { ItemsDumped(items, Value(d).items); }
    case Dict(entries) =>
      var keys := SortSet(KeysOf(entries));
      if keys != [] { EntriesDumped(d, keys); }
      DictDumped(d, keys);
  }

  lemma DictDumped(d: Doc, keys: seq<string>)
    requires d.Dict? && keys == SortSet(KeysOf(d.entries))
    requires keys != [] ==>
      && (forall k :: k in keys ==> k in Value(d).fields)
      && DumpEntries(d, keys) == PrintMembers(SPACED, Value(d), keys)
    ensures Dump(d) == PrintIn(SPACED, Value(d))
  {
    var fields := Value(d).fields;
    assert KeysOf(d.entries) == fields.Keys;
    if keys != [] {
      assert keys[0] in fields;
    } else {
      assert forall k :: k in fields <==> k in keys;
      assert fields == map[];
    }
  }

  lemma {:induction false} ItemsDumped(items: seq<Doc>, values: seq<Json>)
    requires items != [] && |values| == |items|
    requires forall i :: 0 <= i < |items| ==> Proper(items[i]) && values[i] == Value(items[i])
    ensures DumpItems(items) == PrintItems(SPACED, values)
    decreases items, 0, 0
  {
    DumpIsPrint(items[0]);
    if |items| > 1 { ItemsDumped(items[1..], values[1..]); }
  }

  lemma {:induction false} EntriesDumped(d: Doc, keys: seq<string>)
    requires d.Dict? && Proper(d) && keys != [] && forall k :: k in keys ==> k in KeysOf(d.entries)
    ensures Value(d).Obj? && (forall k :: k in keys ==> k in Value(d).fields)
    ensures DumpEntries(d, keys) == PrintMembers(SPACED, Value(d), keys)
    decreases d, 0, |keys|
  {
    ValueAt(d, keys[0]);
    DumpIsPrint(d.entries[IndexOf(d.entries, keys[0])].value);
    if |keys| > 1 { EntriesDumped(d, keys[1..]); }
  }

  /** Documents of the same value have the same text, so the order in which entries were read does not matter. */
  lemma SameValueSameText(a: Doc, b: Doc)
    requires Proper(a) && Proper(b) && Value(a) == Value(b)
    ensures Dump(a) == Dump(b)
  {
    DumpIsPrint(a);
    DumpIsPrint(b);
  }

  /** The text of a document reads back to its value. */
  lemma DumpReadsBack(d: Doc)
    requires Proper(d) && WellFormed(Value(d))
    ensures ReadValue(Dump(d)) == Some((Value(d), ""))
  {
    DumpIsPrint(d);
    StylesAreFair();
    ValueReadsBack(SPACED, Value(d), "");
    assert Dump(d) + "" == Dump(d);
  }

  // ---------------------------------------------------------------- previews

  function BodyPreview(p: Previewer, body: Bytes, maxBytes: nat): (string, bool) {
    var bounded := if |body| > maxBytes then body[..maxBytes] else body;
    var truncated := |body| > maxBytes;
    var text := p.decode(bounded);
    var rendered :=
      if truncated then text
      else match p.loads(text)
        case Some(doc) => Dump(RedactDoc(p, doc))
        case None => text;
    (p.scrubAssignments(p.scrubTokens(rendered)), truncated)
  }

  lemma {:induction false} RedactedIsProper(p: Previewer, d: Doc)
    requires Proper(d)
    ensures Proper(RedactDoc(p, d))
    decreases d
  {
    match d
    case Leaf(_) =>
    case List(items) =>
      forall i | 0 <= i < |items| ensures Proper(RedactDoc(p, items[i])) { RedactedIsProper(p, items[i]); }
    case Dict(entries) =>
      forall i | 0 <= i < |entries| ensures Proper(RedactDoc(p, entries[i].value)) {
        RedactedIsProper(p, entries[i].value);
      }
  }

  lemma {:induction false} RedactedIsWellFormed(p: Previewer, value: Json)
    requires WellFormed(value)
    ensures WellFormed(RedactJson(p, value))
    decreases value
  {
    match value
    case Obj(fields) =>
      forall k | k in fields && !p.IsSensitive(k) ensures WellFormed(RedactJson(p, fields[k])) {
        RedactedIsWellFormed(p, fields[k]);
      }
    case Arr(items) =>
      forall i | 0 <= i < |items| ensures WellFormed(RedactJson(p, items[i])) { RedactedIsWellFormed(p, items[i]); }
    case _ =>
  }

  /** The first `maxBytes` bytes. */
  predicate IsHead(head: Bytes, body: Bytes, maxBytes: nat) {
    head <= body && |head| == if |body| < maxBytes then |body| else maxBytes
  }

  /**
   * What a preview is: both scrubbers over the text; over the decoded head of a body that does not fit or is not
   * JSON, and otherwise over a text that reads back as the redacted value.
   */
  lemma PreviewExactly(p: Previewer, body: Bytes, maxBytes: nat) returns (text: string, head: Bytes)
    ensures BodyPreview(p, body, maxBytes) == (p.scrubAssignments(p.scrubTokens(text)), |body| > maxBytes)
    ensures IsHead(head, body, maxBytes)
    ensures |body| > maxBytes || p.loads(p.decode(body)).None? ==> text == p.decode(head)
    ensures |body| <= maxBytes && p.loads(p.decode(body)).Some? ==>
      var doc := p.loads(p.decode(body)).value;
      Proper(doc) && WellFormed(Value(doc)) ==> ReadValue(text) == Some((RedactJson(p, Value(doc)), ""))
  {
    head := if |body| > maxBytes then body[..maxBytes] else body;
    text := p.decode(head);
    if |body| <= maxBytes && p.loads(text).Some? {
      var doc := p.loads(text).value;
      text := Dump(RedactDoc(p, doc));
      if Proper(doc) && WellFormed(Value(doc)) {
        RedactedIsProper(p, doc);
        ValueOfRedacted(p, doc);
        RedactedIsWellFormed(p, Value(doc));
        DumpReadsBack(RedactDoc(p, doc));
      }
    }
  }

  /** Two bodies that are JSON and differ only beneath sensitive keys or in key order. */
  ghost predicate AlikeBodies(p: Previewer, a: Bytes, b: Bytes) {
    && p.loads(p.decode(a)).Some? && p.loads(p.decode(b)).Some?
    && Proper(p.loads(p.decode(a)).value) && Proper(p.loads(p.decode(b)).value)
    && AlikeOutsideSecrets(p, Value(p.loads(p.decode(a)).value), Value(p.loads(p.decode(b)).value))
  }

  /**
   * Two JSON bodies that fit and differ only beneath sensitive keys or in key order leave the same preview and flag.
   */
  lemma PreviewHidesSecrets(p: Previewer, a: Bytes, b: Bytes, maxBytes: nat)
    requires |a| <= maxBytes && |b| <= maxBytes
    requires AlikeBodies(p, a, b)
    ensures BodyPreview(p, a, maxBytes) == BodyPreview(p, b, maxBytes)
  {
    var x, y := p.loads(p.decode(a)).value, p.loads(p.decode(b)).value;
    RedactsAlike(p, Value(x), Value(y));
    ValueOfRedacted(p, x);
    ValueOfRedacted(p, y);
    RedactedIsProper(p, x);
    RedactedIsProper(p, y);
    SameValueSameText(RedactDoc(p, x), RedactDoc(p, y));
  }

  /** No secret beneath a sensitive key shows in the preview of a body of at most `size` bytes. */
  ghost predicate HidesSecrets(maxBytes: nat, size: nat) {
    forall p: Previewer, a, b :: |a| <= size && |b| <= size && AlikeBodies(p, a, b) ==>
      BodyPreview(p, a, maxBytes) == BodyPreview(p, b, maxBytes)
  }

  /** Reads every text as the value of a token; decodes byte by byte and scrubs nothing. */
  function TokenReader(): Previewer {
    Previewer(
      s => s,
      (b: Bytes) => seq(|b|, i requires 0 <= i < |b| => b[i] as char),
      s => Some(Dict([Entry("token", Leaf(Str(s)))])),
      s => s, s => s)
  }

  lemma TokensAreAlike(a: Bytes, b: Bytes)
    ensures AlikeBodies(TokenReader(), a, b)
  {
    var p := TokenReader();
    assert p.IsSensitive("token");
    var x, y := p.loads(p.decode(a)).value, p.loads(p.decode(b)).value;
    assert x.entries[0] in x.entries && y.entries[0] in y.entries;
    assert KeysOf(x.entries) == {"token"} == KeysOf(y.entries);
  }

  /** Past the limit the body is not parsed, so a secret is up to the scrubbers alone. */
  lemma TruncatedPreviewLeaks(maxBytes: nat) returns (a: Bytes, b: Bytes)
    requires maxBytes > 0
    ensures |a| == |b| == maxBytes + 1 && AlikeBodies(TokenReader(), a, b)
    ensures BodyPreview(TokenReader(), a, maxBytes) != BodyPreview(TokenReader(), b, maxBytes)
  {
    a, b := seq(maxBytes + 1, _ => 0), seq(maxBytes + 1, _ => 1);
    TokensAreAlike(a, b);
    var p := TokenReader();
    assert p.decode(a[..maxBytes])[0] == 0 as char && p.decode(b[..maxBytes])[0] == 1 as char;
  }

  /** Secrets are hidden by the JSON redaction exactly in bodies that fit. */
  lemma HidesSecretsExactly(maxBytes: nat, size: nat)
    requires maxBytes > 0
    ensures HidesSecrets(maxBytes, size) <==> size <= maxBytes
  {
    if size <= maxBytes {
      forall p: Previewer, a, b | |a| <= size && |b| <= size && AlikeBodies(p, a, b)
        ensures BodyPreview(p, a, maxBytes) == BodyPreview(p, b, maxBytes)
      {
        PreviewHidesSecrets(p, a, b, maxBytes);
      }
    } else {
      var a, b := TruncatedPreviewLeaks(maxBytes);
      assert |a| <= size && |b| <= size;
    }
  }

  // ---------------------------------------------------------------- headers

  const SENSITIVE_HEADERS := {
    "authorization", "cookie", "proxy-authorization", "set-cookie", "x-api-key", "x-auth-token" }

  function RedactHeaders(lower: string -> string, headers: map<string, string>): map<string, string> {
    map name | name in headers :: if lower(name) in SENSITIVE_HEADERS then REDACTED else headers[name]
  }
}
