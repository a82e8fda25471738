/** Auth profiles: the checks of `resolve_auth_headers` and the canonical text behind `profile_fingerprint`. */
module Credentials {
  import opened Text

  const AUTH_HEADER_NAMES := { "authorization", "cookie", "x-api-key", "x-auth-token" }

  predicate IsTokenChar(c: char) {
    'a' <= c <= 'z' || 'A' <= c <= 'Z' || '0' <= c <= '9' || c in "!#$%&'*+.^_`|~-"
  }

  predicate IsToken(name: string) {
    name != "" && forall c <- name :: IsTokenChar(c)
  }

  /** The header set that a declared profile may carry. */
  predicate ValidHeaders(lower: string -> string, headers: map<string, string>) {
    && headers.Keys != {}
    && forall name | name in headers ::
      && lower(name) in AUTH_HEADER_NAMES
      && IsToken(name)
      && '\r' !in headers[name] && '\n' !in headers[name]
  }

  /** Declared profiles, and what memory or the environment holds for each of them. */
  datatype Vault = Vault(lower: string -> string, declared: seq<string>, secrets: string -> map<string, string>)

  datatype CredentialError = UndeclaredProfile | NoSecretLoaded | BadHeader

  datatype Resolution = Headers(headers: map<string, string>) | Refusal(error: CredentialError)

  function ResolveAuthHeaders(vault: Vault, profile: Option<string>): (r: Resolution)
    ensures r.Headers? && profile.Some? ==> ValidHeaders(vault.lower, r.headers)
  {
    match profile
    case None => Headers(map[])
    case Some(name) =>
      if name !in vault.declared then Refusal(UndeclaredProfile)
      else
        var headers := vault.secrets(name);
        if headers.Keys == {} then Refusal(NoSecretLoaded)
        else if ValidHeaders(vault.lower, headers) then Headers(headers)
        else Refusal(BadHeader)
  }

  /** Which headers a profile resolves to, and when and how it is refused. */
  lemma ResolvesExactly(vault: Vault, name: string)
    ensures var r, secrets := ResolveAuthHeaders(vault, Some(name)), vault.secrets(name);
      && (r == Refusal(UndeclaredProfile) <==> name !in vault.declared)
      && (r == Refusal(NoSecretLoaded) <==> name in vault.declared && secrets == map[])
      && (r.Headers? <==>
            && name in vault.declared && secrets != map[]
            && forall header :: header in secrets ==>
              && vault.lower(header) in ["authorization", "cookie", "x-api-key", "x-auth-token"]
              && header != "" && (forall c :: c in header ==>
                    'a' <= c <= 'z' || 'A' <= c <= 'Z' || '0' <= c <= '9' || c in "!#$%&'*+-.^_`|~")
              && '\r' !in secrets[header] && '\n' !in secrets[header])
      && (r.Headers? ==> r.headers == secrets)
    ensures ResolveAuthHeaders(vault, None) == Headers(map[])
  {
    var secrets := vault.secrets(name);
    assert secrets.Keys == {} <==> secrets == map[];
    assert forall c: char :: c in "!#$%&'*+-.^_`|~" <==> c in "!#$%&'*+.^_`|~-";
    assert forall x :: x in AUTH_HEADER_NAMES <==> x in ["authorization", "cookie", "x-api-key", "x-auth-token"];
  }

  // ---------------------------------------------------------------- the canonical text

  /** One line per header, in the order of the sorted items. */
  function Lines(lower: string -> string, headers: map<string, string>): seq<string> {
    var names := SortSet(headers.Keys);
    seq(|names|, i requires 0 <= i < |names| => lower(names[i]) + ":" + headers[names[i]])
  }

  function Canonical(lower: string -> string, headers: map<string, string>): string {
    Join(Lines(lower, headers), '\n')
  }

  /** What a profile authenticates with: lower-cased names and values, in the same order. */
  function CredentialList(lower: string -> string, headers: map<string, string>): seq<(string, string)> {
    var names := SortSet(headers.Keys);
    seq(|names|, i requires 0 <= i < |names| => (lower(names[i]), headers[names[i]]))
  }

  lemma AuthNamesHaveNoSeparators(name: string)
    requires name in AUTH_HEADER_NAMES
    ensures ':' !in name && '\n' !in name
  {
    if name == "authorization" {
    } else if name == "cookie" {
    } else if name == "x-api-key" {
    }
  }

  lemma LinesAreClean(lower: string -> string, headers: map<string, string>, i: nat)
    requires ValidHeaders(lower, headers) && i < |Lines(lower, headers)|
    ensures var item := CredentialList(lower, headers)[i];
      && Lines(lower, headers)[i] == item.0 + ":" + item.1
      && ':' !in item.0 && '\n' !in Lines(lower, headers)[i]
  {
    var names := SortSet(headers.Keys);
    assert names[i] in names;
    AuthNamesHaveNoSeparators(lower(names[i]));
  }

  lemma CanonicalSplits(lower: string -> string, headers: map<string, string>)
    requires ValidHeaders(lower, headers)
    ensures Split(Canonical(lower, headers), '\n') == Lines(lower, headers)
  {
    var lines := Lines(lower, headers);
    forall line | line in lines ensures '\n' !in line {
      var i :| 0 <= i < |lines| && lines[i] == line;
      LinesAreClean(lower, headers, i);
    }
    var some :| some in headers;
    assert some in SortSet(headers.Keys);
    SplitJoin(lines, '\n');
  }

  lemma LinesDecode(lower: string -> string, g: map<string, string>, h: map<string, string>)
    requires ValidHeaders(lower, g) && ValidHeaders(lower, h) && Lines(lower, g) == Lines(lower, h)
    ensures CredentialList(lower, g) == CredentialList(lower, h)
  {
    var a, b := CredentialList(lower, g), CredentialList(lower, h);
    assert |a| == |Lines(lower, g)| == |b|;
    forall i | 0 <= i < |a| ensures a[i] == b[i] {
      LinesAreClean(lower, g, i);
      LinesAreClean(lower, h, i);
      HeadEndsAtSeparator(a[i].0, b[i].0, a[i].1, b[i].1, ':');
    }
  }

  lemma ListGivesLines(lower: string -> string, g: map<string, string>, h: map<string, string>)
    requires CredentialList(lower, g) == CredentialList(lower, h)
    ensures Lines(lower, g) == Lines(lower, h)
  {
    var a, b := CredentialList(lower, g), CredentialList(lower, h);
    var x, y := Lines(lower, g), Lines(lower, h);
    assert |x| == |a| == |b| == |y|;
    assert forall i :: 0 <= i < |x| ==> x[i] == a[i].0 + ":" + a[i].1;
    assert forall i :: 0 <= i < |y| ==> y[i] == b[i].0 + ":" + b[i].1;
  }

  /** The canonical text of a valid profile determines its credentials, and the other way round. */
  lemma CanonicalDecodes(lower: string -> string, g: map<string, string>, h: map<string, string>)
    requires ValidHeaders(lower, g) && ValidHeaders(lower, h)
    ensures Canonical(lower, g) == Canonical(lower, h) <==> CredentialList(lower, g) == CredentialList(lower, h)
  {
    if Canonical(lower, g) == Canonical(lower, h) {
      CanonicalSplits(lower, g);
      CanonicalSplits(lower, h);
      LinesDecode(lower, g, h);
    }
    if CredentialList(lower, g) == CredentialList(lower, h) {
      ListGivesLines(lower, g, h);
    }
  }

  function Fingerprint(vault: Vault, digest: string -> string, profile: string): (r: Option<string>)
    ensures r.Some? <==> ResolveAuthHeaders(vault, Some(profile)).Headers?
  {
    match ResolveAuthHeaders(vault, Some(profile))
    case Headers(headers) => Some(digest(Canonical(vault.lower, headers)))
    case Refusal(_) => None
  }

  /**
   * Two loaded profiles have equal fingerprints exactly when they hold the same credentials, barring a digest
   * collision.
   */
  lemma FingerprintIdentifies(vault: Vault, digest: string -> string, p: string, q: string)
    requires Fingerprint(vault, digest, p).Some? && Fingerprint(vault, digest, q).Some?
    requires var g, h := Canonical(vault.lower, vault.secrets(p)), Canonical(vault.lower, vault.secrets(q));
      digest(g) == digest(h) ==> g == h
    ensures Fingerprint(vault, digest, p) == Fingerprint(vault, digest, q) <==>
      CredentialList(vault.lower, vault.secrets(p)) == CredentialList(vault.lower, vault.secrets(q))
  {
    CanonicalDecodes(vault.lower, vault.secrets(p), vault.secrets(q));
  }

  /** Why the line-break check matters: without it, any two headers could be packed into one. */
  lemma LineBreakWouldCollide(lower: string -> string, c: string, n: string, v: string, w: string)
    requires Less(c, n)
    ensures var one, two := map[c := v + "\n" + lower(n) + ":" + w], map[c := v, n := w];
      && Canonical(lower, one) == Canonical(lower, two)
      && |CredentialList(lower, one)| == 1 && |CredentialList(lower, two)| == 2
      && !ValidHeaders(lower, one)
  {
    var packed := v + "\n" + lower(n) + ":" + w;
    var one, two := map[c := packed], map[c := v, n := w];
    LessTotal(c, n);
    SortedUnique(SortSet(one.Keys), [c]);
    SortedUnique(SortSet(two.Keys), [c, n]);
    var first, second := lower(c) + ":" + v, lower(n) + ":" + w;
    assert Lines(lower, one) == [lower(c) + ":" + packed];
    assert Lines(lower, two) == [first, second];
    assert Lines(lower, two)[1..] == [second];
    assert Join([second], '\n') == second;
    assert lower(c) + ":" + packed == first + ['\n'] + second;
    assert packed[|v|] == '\n';
  }
}
