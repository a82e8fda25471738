/** What `HttpExecutor.execute` is asked to do: the checks on its arguments and the request it puts together. */
module Calls {
  import opened Text
  import opened Scope
  import opened Gateway
  import opened Findings
  import opened Credentials
  import opened Evidence

  datatype HttpCall = HttpCall(
    target: Target, verb: string, authProfile: Option<string>, body: Bytes,
    requestHeaders: map<string, string>, approvalId: Option<string>, payloadLabel: Option<string>)

  datatype ExecError =
    | UnsupportedMethod | HeadWithBody | BodyTooLarge | BodyNotAllowed | HeaderRefused | AuthHeaderWithProfile
    | UnsafeWait
    | BlockedByGateway(decision: GatewayDecision)
    | CredentialsRefused(error: CredentialError)
    | SendFailed

  datatype HttpObservation = HttpObservation(
    actionId: ActionId, evidenceId: EvidenceId, authProfile: Option<string>, response: HttpResponse)

  datatype Execution = Observed(observation: HttpObservation) | Raised(error: ExecError)

  const FORWARD_HEADER_NAMES := AUTH_HEADER_NAMES + { "accept", "content-type", "user-agent" }

  const READING_METHODS := ["GET", "HEAD", "OPTIONS"]
  const SUPPORTED_METHODS := ["GET", "HEAD", "OPTIONS", "POST", "PUT", "PATCH", "DELETE"]

  function RiskForMethod(verb: string): RiskLevel {
    if verb in READING_METHODS then ReadOnly else if verb == "DELETE" then Destructive else StateChange
  }

  predicate Forwardable(lower: string -> string, name: string, value: string) {
    && lower(name) in FORWARD_HEADER_NAMES
    && '\r' !in name && '\n' !in name && '\r' !in value && '\n' !in value
  }

  predicate AllForwardable(lower: string -> string, headers: map<string, string>) {
    forall name | name in headers :: Forwardable(lower, name, headers[name])
  }

  /** `_validate_forward_headers`: all of the headers or none. */
  method ForwardHeaders(lower: string -> string, headers: map<string, string>)
    returns (result: Option<map<string, string>>)
    ensures result == if AllForwardable(lower, headers) then Some(headers) else None
  {
    var safe: map<string, string> := map[];
    var rest := headers.Keys;
    while rest != {}
      invariant rest <= headers.Keys
      invariant safe.Keys == headers.Keys - rest
      invariant forall name | name in safe :: safe[name] == headers[name] && Forwardable(lower, name, headers[name])
      decreases rest
    {
      var name :| name in rest;
      if !Forwardable(lower, name, headers[name]) {
        return None;
      }
      safe := safe[name := headers[name]];
      rest := rest - {name};
    }
    assert safe == headers;
    result := Some(safe);
  }

  function CheckBody(config: Engagement, call: HttpCall): Option<ExecError> {
    if call.verb !in SUPPORTED_METHODS then Some(UnsupportedMethod)
    else if call.verb == "HEAD" && call.body != [] then Some(HeadWithBody)
    else if |call.body| > config.maxPayloadBytes then Some(BodyTooLarge)
    else if call.verb in READING_METHODS && call.body != [] then Some(BodyNotAllowed)
    else None
  }

  predicate CarriesCredentials(lower: string -> string, headers: map<string, string>) {
    exists name | name in headers :: lower(name) in AUTH_HEADER_NAMES
  }

  /** The argument checks in front of the gate, in order. */
  function CheckArguments(config: Engagement, lower: string -> string, call: HttpCall): Option<ExecError> {
    if CheckBody(config, call).Some? then CheckBody(config, call)
    else if !AllForwardable(lower, call.requestHeaders) then Some(HeaderRefused)
    else if call.authProfile.Some? && CarriesCredentials(lower, call.requestHeaders) then Some(AuthHeaderWithProfile)
    else None
  }

  method RefusedArguments(config: Engagement, lower: string -> string, call: HttpCall)
    returns (refused: Option<ExecError>)
    ensures refused == CheckArguments(config, lower, call)
  {
    refused := CheckBody(config, call);
    if refused.None? {
      var safe := ForwardHeaders(lower, call.requestHeaders);
      if safe.None? {
        refused := Some(HeaderRefused);
      } else if call.authProfile.Some? && CarriesCredentials(lower, safe.value) {
        refused := Some(AuthHeaderWithProfile);
      }
    }
  }

  /** Which arguments are accepted, name by name. */
  lemma AcceptedExactly(config: Engagement, lower: string -> string, call: HttpCall)
    ensures CheckArguments(config, lower, call).None? <==>
      && call.verb in ["GET", "HEAD", "OPTIONS", "POST", "PUT", "PATCH", "DELETE"]
      && |call.body| <= config.maxPayloadBytes
      && (call.body != [] ==> call.verb in ["POST", "PUT", "PATCH", "DELETE"])
      && (forall name :: name in call.requestHeaders ==>
            && MayForward(lower, name, call.requestHeaders[name])
            && (call.authProfile.Some? ==> lower(name) in ["accept", "content-type", "user-agent"]))
  {
    AuthNamesApart();
    ForwardNames();
  }

  lemma AuthNamesApart()
    ensures forall name :: name in AUTH_HEADER_NAMES <==>
      name in ["authorization", "cookie", "x-api-key", "x-auth-token"]
    ensures forall name :: name in AUTH_HEADER_NAMES ==> name !in ["accept", "content-type", "user-agent"]
  {
    assert |"accept"| == 6 && |"content-type"| == 12 && |"user-agent"| == 10;
    assert |"authorization"| == 13 && |"cookie"| == 6 && |"x-api-key"| == 9 && |"x-auth-token"| == 12;
    assert "accept"[0] == 'a' && "cookie"[0] == 'c' && "content-type"[0] == 'c' && "x-auth-token"[0] == 'x';
  }

  /** Which of the checks it was. */
  lemma RefusedExactly(config: Engagement, lower: string -> string, call: HttpCall)
    ensures var refused := CheckArguments(config, lower, call);
      var known := call.verb in ["GET", "HEAD", "OPTIONS", "POST", "PUT", "PATCH", "DELETE"];
      var tooLarge := |call.body| > config.maxPayloadBytes;
      && (refused == Some(UnsupportedMethod) <==> !known)
      && (refused == Some(HeadWithBody) <==> call.verb == "HEAD" && call.body != [])
      && (refused == Some(BodyTooLarge) <==> known && tooLarge && (call.verb == "HEAD" ==> call.body == []))
      && (refused == Some(BodyNotAllowed) <==> call.verb in ["GET", "OPTIONS"] && call.body != [] && !tooLarge)
      && (refused == Some(AuthHeaderWithProfile) ==>
            && call.authProfile.Some?
            && exists name :: name in call.requestHeaders
                 && lower(name) in ["authorization", "cookie", "x-api-key", "x-auth-token"])
      && (refused == Some(HeaderRefused) ==>
            exists name :: name in call.requestHeaders && !MayForward(lower, name, call.requestHeaders[name]))
      && (refused.None? || refused == Some(AuthHeaderWithProfile) ==>
            forall name :: name in call.requestHeaders ==> MayForward(lower, name, call.requestHeaders[name]))
  {
    AuthNamesApart();
    ForwardNames();
  }

  /** The header has one of the forwarded names, and no line break. */
  ghost predicate MayForward(lower: string -> string, name: string, value: string) {
    && lower(name) in ["authorization", "cookie", "x-api-key", "x-auth-token",
                       "accept", "content-type", "user-agent"]
    && '\r' !in name && '\n' !in name && '\r' !in value && '\n' !in value
  }

  lemma ForwardNames()
    ensures forall name :: name in FORWARD_HEADER_NAMES <==>
      name in ["authorization", "cookie", "x-api-key", "x-auth-token", "accept", "content-type", "user-agent"]
  {
    AuthNamesApart();
    assert forall name :: name in FORWARD_HEADER_NAMES <==>
      name in AUTH_HEADER_NAMES || name in ["accept", "content-type", "user-agent"];
  }

  const BASE_HEADERS := map[
    "Accept" := "*/*", "Accept-Encoding" := "identity", "Connection" := "close",
    "User-Agent" := "Nighwatch/0.2 controlled-active" ]

  /** The headers sent: defaults, then the caller's, then the profile's, then a content type if a body lacks one. */
  function SentHeaders(lower: string -> string, call: HttpCall, auth: map<string, string>): map<string, string> {
    var headers := BASE_HEADERS + call.requestHeaders + auth;
    if call.body != [] && !(exists name | name in headers :: lower(name) == "content-type") then
      headers["Content-Type" := "application/octet-stream"]
    else headers
  }

  function Lookup(headers: map<string, string>, name: string): Option<string> {
    if name in headers then Some(headers[name]) else None
  }

  function DefaultHeader(name: string): Option<string> {
    if name == "Accept" then Some("*/*")
    else if name == "Accept-Encoding" then Some("identity")
    else if name == "Connection" then Some("close")
    else if name == "User-Agent" then Some("Nighwatch/0.2 controlled-active")
    else None
  }

  lemma DefaultsAre(name: string)
    ensures Lookup(BASE_HEADERS, name) == DefaultHeader(name)
  {
    assert "Connection"[0] == 'C' && "User-Agent"[0] == 'U';
  }

  /** The value of a header before a content type is added: the profile's, else the caller's, else the default. */
  function GivenHeader(call: HttpCall, auth: map<string, string>, name: string): Option<string> {
    if name in auth then Some(auth[name])
    else if name in call.requestHeaders then Some(call.requestHeaders[name])
    else DefaultHeader(name)
  }

  lemma GivenHeadersAre(call: HttpCall, auth: map<string, string>, name: string)
    ensures Lookup(BASE_HEADERS + call.requestHeaders + auth, name) == GivenHeader(call, auth, name)
  {
    DefaultsAre(name);
  }

  /** Where each header that is sent comes from; a content type is added exactly to a body that lacks one. */
  lemma HeadersExactly(lower: string -> string, call: HttpCall, auth: map<string, string>, name: string)
    ensures var typed := exists n :: GivenHeader(call, auth, n).Some? && lower(n) == "content-type";
      Lookup(SentHeaders(lower, call, auth), name) ==
        if call.body != [] && !typed && name == "Content-Type" then Some("application/octet-stream")
        else GivenHeader(call, auth, name)
  {
    var headers := BASE_HEADERS + call.requestHeaders + auth;
    forall n ensures n in headers <==> GivenHeader(call, auth, n).Some? { GivenHeadersAre(call, auth, n); }
    GivenHeadersAre(call, auth, name);
  }

  /** Which headers are sent depends on the names in the profile alone, and the others are not touched by its values. */
  lemma SameNamesSent(lower: string -> string, call: HttpCall, g: map<string, string>, h: map<string, string>)
    requires g.Keys == h.Keys
    ensures var x, y := SentHeaders(lower, call, g), SentHeaders(lower, call, h);
      && x.Keys == y.Keys && g.Keys <= x.Keys
      && forall name :: name in x && name !in g ==> x[name] == y[name]
  {
    var base := BASE_HEADERS + call.requestHeaders;
    assert (base + g).Keys == (base + h).Keys;
  }

  /** What goes out on the network. */
  datatype WireRequest = WireRequest(target: Target, verb: string, headers: map<string, string>, body: Bytes)

  function WireFor(lower: string -> string, call: HttpCall, auth: map<string, string>): WireRequest {
    WireRequest(call.target, call.verb, SentHeaders(lower, call, auth), call.body)
  }

  function RequestFor(call: HttpCall, actionId: ActionId): ActionRequest {
    ActionRequest(actionId, call.target, call.verb, RiskForMethod(call.verb), call.approvalId)
  }

  /** The policy's own words for a request with this method. */
  ghost predicate VerbPermitted(
    actions: ActionPolicy, approved: set<string>, verb: string, approvalId: Option<string>)
  {
    var registered := approvalId.Some? && approvalId.value in approved;
    if verb in ["GET", "HEAD", "OPTIONS"] then actions.readOnly
    else if verb in ["POST", "PUT", "PATCH"] then
      actions.stateMutation && (!actions.requireStateChangeApproval || registered)
    else verb == "DELETE" && actions.destructive && (!actions.requireDestructiveApproval || registered)
  }

  /** The approval of a call hangs on its method just so, and nothing but reading counts as reading. */
  lemma VerbPermittedExactly(actions: ActionPolicy, approved: set<string>, call: HttpCall, actionId: ActionId)
    requires "" !in approved && call.verb in ["GET", "HEAD", "OPTIONS", "POST", "PUT", "PATCH", "DELETE"]
    ensures Evaluate(actions, approved, RequestFor(call, actionId)).allowed <==>
      VerbPermitted(actions, approved, call.verb, call.approvalId)
    ensures RequestFor(call, actionId).risk == ReadOnly <==> call.verb in ["GET", "HEAD", "OPTIONS"]
  {
    assert "DELETE" !in ["POST", "PUT", "PATCH"];
  }

  /** The names of the default headers are those of no credential, once lower-cased. */
  predicate DefaultsCarryNothing(lower: string -> string) {
    !CarriesCredentials(lower, BASE_HEADERS["Content-Type" := ""])
  }

  /**
   * With a profile, what authenticates a request is exactly the profile: no header of the caller's adds to it or
   * replaces it.
   */
  lemma OnlyTheProfileAuthenticates(config: Engagement, lower: string -> string, call: HttpCall,
                                    auth: map<string, string>)
    requires CheckArguments(config, lower, call).None? && call.authProfile.Some?
    requires ValidHeaders(lower, auth) && DefaultsCarryNothing(lower)
    ensures var sent := SentHeaders(lower, call, auth);
      (map name | name in sent && lower(name) in AUTH_HEADER_NAMES :: sent[name]) == auth
  {
    var sent := SentHeaders(lower, call, auth);
    forall name ensures name in auth <==> name in sent && lower(name) in AUTH_HEADER_NAMES {
      assert name in BASE_HEADERS["Content-Type" := ""] ==> lower(name) !in AUTH_HEADER_NAMES;
    }
    forall name | name in auth ensures sent[name] == auth[name] {
      assert lower("Content-Type") !in AUTH_HEADER_NAMES;
    }
  }
}
