/** `HttpExecutor.execute` as one thread runs it: gate, receipt, credentials, slot, live check, send, evidence. */
module Executor {
  import opened Text
  import opened Pacing
  import opened Gateway
  import opened Findings
  import opened Credentials
  import opened Evidence
  import opened Calls
  import opened Accounting

  /** The clock, the operator and the network, all arbitrary except that the clock never runs backwards. */
  class World {
    var now: real
    var actions: nat
    var sleeps: seq<real>
    var killed: bool             // what the last `authorize` saw of the kill switch
    var cleared: bool            // the last look at the kill switch was made with a slot held, and found it off
    var sent: seq<WireRequest>

    method ReadClock() returns (current: real)
      modifies this`now
      ensures current == now >= old(now)
    {
      var elapsed: real := *;
      now := now + (if elapsed > 0.0 then elapsed else 0.0);
      current := now;
    }

    method Sleep(seconds: real)
      modifies this`now, this`sleeps
      ensures now >= old(now) + seconds && sleeps == old(sleeps) + [seconds]
    {
      sleeps := sleeps + [seconds];
      var extra: real := *;
      now := now + seconds + (if extra > 0.0 then extra else 0.0);
    }

    /** The look at the kill switch that `authorize` takes. */
    method KillSwitch() returns (tripped: bool)
      modifies this`killed, this`cleared
      ensures tripped == killed && !cleared
    {
      tripped := *;
      killed, cleared := tripped, false;
    }

    /** The look at the kill switch that `assert_live` takes; here only ever with a slot held. */
    method AssertLive(gateway: ToolGateway) returns (tripped: bool)
      requires gateway.HoldsSlot()
      modifies this`cleared
      ensures tripped == !cleared
    {
      tripped := *;
      cleared := !tripped;
    }

    method NewActionId() returns (id: ActionId)
      modifies this`actions
      ensures id == old(actions) && actions == id + 1
    {
      id := actions;
      actions := actions + 1;
    }

    /**
     * A response, or nothing for an exception named in the except clause; only ever after a live check in the slot.
     */
    method Send(gateway: ToolGateway, request: WireRequest) returns (response: Option<HttpResponse>)
      requires cleared && gateway.HoldsSlot()
      modifies this`sent
      ensures sent == old(sent) + [request]
    {
      sent := sent + [request];
      var answered: bool, status: int, content: Bytes := *, *, *;
      response := if answered then Some(HttpResponse(status, content)) else None;
    }
  }

  class HttpExecutor {
    const gateway: ToolGateway
    const evidence: EvidenceStore
    const lib: Library
    const vault: Vault

    constructor (gateway: ToolGateway, evidence: EvidenceStore, lib: Library, vault: Vault)
      requires gateway.Valid() && gateway.freeSlots == gateway.config.limits.maxConcurrentRequests
      ensures Ready()
      ensures this.gateway == gateway && this.evidence == evidence && this.lib == lib && this.vault == vault
    {
      this.gateway, this.evidence, this.lib, this.vault := gateway, evidence, lib, vault;
    }

    /** No call is under way, so every slot is free. */
    ghost predicate Ready()
      reads this, gateway
    {
      gateway.Valid() && gateway.freeSlots == gateway.config.limits.maxConcurrentRequests
    }

    function Env(): Setting { Setting(gateway.config, gateway.approved, lib, vault) }

    function Ledgers(): Books
      reads gateway, gateway.limiter, evidence
    {
      Books(gateway.limiter.State(), gateway.receipts, evidence.records)
    }

    /**
     * The authorize-and-sleep loop of one thread: the gateway's decision for the last readings of switch and clock, or
     * nothing when it asks for too long a wait. With nobody else around, one sleep is always enough.
     */
    method AwaitDecision(world: World, request: ActionRequest) returns (decision: Option<GatewayDecision>)
      requires Ready()
      modifies world`now, world`sleeps, world`killed, world`cleared, gateway.limiter
      ensures Ready()
      ensures Env().SleptAsAsked(request, old(gateway.limiter.State()), old(world.sleeps), world.sleeps)
      ensures decision.None? ==>
        && gateway.limiter.State() == old(gateway.limiter.State())
        && Env().WaitTooLong(request, gateway.limiter.State())
      ensures decision.Some? ==>
        Env().DecidedSo(request, old(gateway.limiter.State()), gateway.limiter.State(), decision.value)
      ensures decision.Some? ==> !AsksToWait(decision.value) && (decision.value.ready ==> !world.killed)
      ensures var (ledger, last) :=
        Authorize(gateway.config, gateway.approved, request, world.killed, old(gateway.limiter.State()), world.now);
        && gateway.limiter.State() == ledger
        && decision == (if AsksToWait(last) then None else Some(last))
        && (AsksToWait(last) ==> last.rate.waitSeconds > 60.0)
    {
      var limits := gateway.config.limits;
      ghost var limiter := gateway.limiter;
      var slept := false;
      while true
        invariant Ready() && limiter.State() == old(gateway.limiter.State())
        invariant !slept ==> world.sleeps == old(world.sleeps)
        invariant Env().SleptAsAsked(request, old(gateway.limiter.State()), old(world.sleeps), world.sleeps)
        invariant slept ==>
          limiter.lastRequestAt.Some? && world.now >= limiter.lastRequestAt.value + limits.Interval()
        decreases if slept then 0 else 1
      {
        var killed := world.KillSwitch();
        var current := world.ReadClock();
        GrantExactly(limits, gateway.limiter.State(), current);
        var d := gateway.AuthorizeRequest(request, killed, current);
        if AsksToWait(d) {
          if d.rate.waitSeconds > LONGEST_WAIT {
            return None;
          }
          assert Env().MayAskFor(request, old(gateway.limiter.State()), d.rate.waitSeconds);
          world.Sleep(d.rate.waitSeconds);
          slept := true;
        } else {
          return Some(d);
        }
      }
    }

    /** The with-block: a slot, the live check, the send; `None` when one of the caught exceptions ended it. */
    method SendInSlot(world: World, request: WireRequest) returns (response: Option<HttpResponse>)
      requires Ready()
      modifies gateway`freeSlots, world`cleared, world`sent
      ensures Ready()
      ensures world.sent == old(world.sent) + (if world.cleared then [request] else [])
      ensures response.Some? ==> world.cleared
    {
      gateway.TakeSlot();
      response := None;
      var tripped := world.AssertLive(gateway);
      if !tripped {
        response := world.Send(gateway, request);
      }
      gateway.ReleaseSlot();
    }

    /** Each execution past the argument checks takes one fresh action id. */
    method Execute(world: World, call: HttpCall) returns (result: Execution)
      requires Ready()
      modifies world, gateway, gateway.limiter, evidence
      ensures Ready()
      ensures Env().Accounts(call, old(world.actions), old(Ledgers()), result, Ledgers())
      ensures Env().Transmits(call, result, world.cleared, old(world.sent), world.sent)
      ensures ReachedSend(result) ==> !world.killed
      ensures |world.sleeps| <= |old(world.sleeps)| + 1
      ensures var refused := CheckArguments(gateway.config, lib.lower, call);
        world.actions == old(world.actions) + (if refused.Some? then 0 else 1)
    {
      var config := gateway.config;
      var refused := RefusedArguments(config, lib.lower, call);
      if refused.Some? {
        return Raised(refused.value);
      }
      var actionId := world.NewActionId();
      var request := RequestFor(call, actionId);
      var decision := AwaitDecision(world, request);
      if decision.None? {
        return Raised(UnsafeWait);
      }
      var receipt := gateway.RecordDecision(request, decision.value);
      if !decision.value.ready {
        return Raised(BlockedByGateway(decision.value));
      }
      result := Deliver(world, call, receipt.actionId);
    }

    /** The part after the receipt: credentials, the guarded send, the evidence. */
    method Deliver(world: World, call: HttpCall, actionId: ActionId) returns (result: Execution)
      requires Ready()
      modifies world`cleared, world`sent, gateway`freeSlots, evidence
      ensures Ready()
      ensures Env().Delivered(call, actionId, old(evidence.records), result, evidence.records)
      ensures Env().Transmits(call, result, world.cleared, old(world.sent), world.sent)
    {
      var resolved := ResolveAuthHeaders(vault, call.authProfile);
      if resolved.Refusal? {
        return Raised(CredentialsRefused(resolved.error));
      }
      var response := SendInSlot(world, WireFor(lib.lower, call, resolved.headers));
      var record := evidence.Append(Env().Exchange(call, resolved.headers, actionId, response));
      if response.None? {
        return Raised(SendFailed);
      }
      result := Observed(HttpObservation(actionId, record.evidenceId, call.authProfile, response.value));
    }
  }
}
