/** The refresh client's own control flow, interrupted by other workers between its transactions. */
module OauthClient {
  import opened Wrappers
  import opened OauthStore
  import opened OauthRotation

  /** What surrounds one persist attempt: other workers' steps, the clock, faults and the commit's fate. */
  datatype Attempt = Attempt(
    before: seq<Event>, at: int, fault: Option<OauthError>, commit: Commit,
    between: seq<Event>, recoverAt: int, recoverFault: Option<OauthError>, recoverCommit: Commit)

  predicate NotOf(id: CallId, events: seq<Event>) {
    forall i :: 0 <= i < |events| ==> events[i].id != id
  }

  predicate AttemptOk(id: CallId, a: Attempt) {
    NotOf(id, a.before) && NotOf(id, a.between) && Injectable(a.fault) && Injectable(a.recoverFault)
  }

  lemma {:induction false} RunAppend(w: World, first: seq<Event>, second: seq<Event>)
    ensures Run(w, first + second) == Run(Run(w, first), second)
    decreases |first|
  {
    if first == [] {
      assert first + second == second;
    } else {
      assert (first + second)[0] == first[0] && (first + second)[1..] == first[1..] + second;
      RunAppend(Next(w, first[0]), first[1..], second);
    }
  }

  /** Steps of other calls do not move this one. */
  lemma {:induction false} OthersLeaveCall(w: World, events: seq<Event>, id: CallId)
    requires NotOf(id, events) && id in w.calls
    ensures id in Run(w, events).calls && Run(w, events).calls[id] == w.calls[id]
    decreases |events|
  {
    if events != [] {
      assert events[0].id != id;
      OthersLeaveCall(Next(w, events[0]), events[1..], id);
    }
  }

  /** What the transport hands back: nothing, or a status and the token pair its body parses to. */
  datatype Response = NoResponse | Response(status: int, pair: Option<(TokenPair, int)>)

  /** A whole call: its own inputs and everything that happens around it. */
  datatype Script = Script(
    beforeClaim: seq<Event>, claimAt: int, renewAt: int, fault: Option<OauthError>, commit: Commit,
    beforePost: seq<Event>, wire: Wire, beforeRelease: seq<Event>, attempts: seq<Attempt>)

  predicate ScriptOk(id: CallId, s: Script) {
    && NotOf(id, s.beforeClaim) && NotOf(id, s.beforePost) && NotOf(id, s.beforeRelease)
    && |s.attempts| == POST_200_PERSIST_ATTEMPTS
    && (forall i :: 0 <= i < |s.attempts| ==> AttemptOk(id, s.attempts[i]))
    && (s.wire.Refused? ==> ClassifyStatus(s.wire.status) != Success)
    && (s.wire.Delivered? && s.wire.answer.Status? ==> ClassifyStatus(s.wire.answer.status) != Success)
  }

  /** How one persist transaction ended, as the client sees it. */
  datatype Reply = Stored | Broken | MustRecover | Failed(error: OauthError)

  function PhaseAfter(reply: Reply, phase: Phase): Phase
    requires phase.Persisting? || phase.Recovering?
  {
    match reply
    case Stored => Done(Success, NoError)
    case Broken => Retry(phase.lease, phase.attempt)
    case MustRecover => Recovering(phase.lease, phase.attempt)
    case Failed(e) => AfterPersistError(phase.lease, phase.attempt, e)
  }

  predicate Transitory(error: OauthError) {
    error in {StaleLease, StoreFailed, EncryptFailed, KeyUnavailable}
  }

  /** The code a call ends with after an OAuth error it does not retry on. */
  function FinalCode(error: OauthError): OauthError {
    if error in {RotateSuperseded, NotFound} then error else RotatePersistFailed
  }

  lemma PhaseOfReply(reply: Reply, phase: Phase)
    requires (phase.Persisting? || phase.Recovering?) && !reply.MustRecover?
    ensures PhaseAfter(reply, phase) ==
            if reply.Stored? then Done(Success, NoError)
            else if reply.Failed? && !Transitory(reply.error) then Done(PermanentError, Oauth(FinalCode(reply.error)))
            else Retry(phase.lease, phase.attempt)
  {
  }

  lemma PersistReady(w: World, id: CallId)
    requires Inv(w) && id in w.calls && (w.calls[id].phase.Persisting? || w.calls[id].phase.Recovering?)
    ensures w.calls[id].pre.Some? && w.calls[id].got.Some? && WellLeased(w.row)
  {
    assert CallOk(w, w.calls[id]);
  }

  lemma PostReady(w: World, id: CallId)
    requires Inv(w) && id in w.calls && w.calls[id].phase.Leased?
    ensures w.calls[id].pre.Some? && w.row.Some? && w.issued != [] && w.calls[id].posts == 0
  {
    assert CallOk(w, w.calls[id]);
  }

  class RefreshClient {
    var world: World
    var httpCalls: seq<string>

    constructor (world: World)
      ensures this.world == world && httpCalls == []
    {
      this.world := world;
      httpCalls := [];
    }

    /** A token no lease has carried yet. */
    method FreshToken() returns (token: nat)
      ensures token !in world.tokens
    {
      ghost var n := UnusedToken(world.tokens);
      token :| token !in world.tokens;
    }

    /**
     * `refresh_tokens`: claim and snapshot, one POST, then release or persist. However it is interrupted, it is
     * a run of the shared protocol in which this call ends as reported, and it sends at most one request.
     */
    method RefreshTokens(id: CallId, worker: string, cutoff: Option<int>, stillAccess: Option<string>, script: Script)
      returns (result: Option<(Outcome, ErrorCode)>, ghost trace: seq<Event>)
      requires Inv(world) && id !in world.calls && ScriptOk(id, script)
      modifies this
      ensures world == Run(old(world), trace) && id in world.calls
      ensures world.calls[id].phase == (match result
                                        case Some((outcome, code)) => Done(outcome, code)
                                        case None => Stopped)
      ensures httpCalls == old(httpCalls) || httpCalls == old(httpCalls) + ["REFRESH"]
      ensures world.calls[id].posts == |httpCalls| - |old(httpCalls)|
    {
      ghost var start := world;
      trace := Open(id, worker, cutoff, stillAccess, script);
      if world.calls[id].phase.Done? {
        return Some((world.calls[id].phase.outcome, world.calls[id].phase.code)), trace;
      }
      if world.calls[id].phase.Stopped? { return None, trace; }
      trace := Exchange(id, script, start, trace);
      var outcome, code;
      ghost var rest;
      if world.calls[id].phase.Persisting? {
        outcome, code, rest := PersistAfter200(id, script.attempts);
        RunAppend(start, trace, rest);
        trace := trace + rest;
      } else {
        outcome, code, trace := GiveUp(id, script, start, trace);
      }
      result := Some((outcome, code));
    }

    /** From the start of the call to the end of its first transaction. */
    method Open(id: CallId, worker: string, cutoff: Option<int>, stillAccess: Option<string>, script: Script)
      returns (ghost trace: seq<Event>)
      requires Inv(world) && id !in world.calls && ScriptOk(id, script)
      modifies this`world
      ensures world == Run(old(world), trace) && Inv(world) && id in world.calls && world.calls[id].posts == 0
      ensures world.calls[id].phase.Done? || world.calls[id].phase.Stopped? || world.calls[id].phase.Leased?
    {
      ghost var start := world;
      world := world.(calls := world.calls[id := Call(worker, Ready(cutoff, stillAccess), 0, None, None, None)]);
      trace := Extend(start, [], Begin(id, worker, cutoff, stillAccess), start);
      trace := Interrupt(id, script.beforeClaim, trace, start);
      var token := FreshToken();
      ghost var before := world;
      hide Next;
      ClaimOnce(id, script.claimAt, script.renewAt, token, script.fault, script.commit);
      trace := Extend(start, trace, Claim(id, script.claimAt, script.renewAt, token, script.fault, script.commit), before);
    }

    /** The POST. Refresh tokens do not repeat: a script in which one would is read as an undelivered request. */
    method Exchange(id: CallId, script: Script, ghost start: World, ghost trace: seq<Event>)
      returns (ghost trace': seq<Event>)
      requires Inv(world) && ScriptOk(id, script) && world == Run(start, trace)
      requires id in world.calls && world.calls[id].phase.Leased?
      modifies this
      ensures world == Run(start, trace') && Inv(world) && id in world.calls && world.calls[id].posts == 1
      ensures httpCalls == old(httpCalls) + ["REFRESH"]
      ensures || world.calls[id].phase.Releasing?
              || (world.calls[id].phase.Persisting? && world.calls[id].phase.attempt == 0)
    {
      hide Inv, Next, Run;
      trace' := Interrupt(id, script.beforePost, trace, start);
      PostReady(world, id);
      var wire := script.wire;
      if wire.Delivered? && !FreshPair(world, wire.next) { wire := NotDelivered; }
      ghost var before := world;
      PostOnce(id, wire);
      trace' := Extend(start, trace', Post(id, wire), before);
    }

    /** The release after a failed POST. */
    method GiveUp(id: CallId, script: Script, ghost start: World, ghost trace: seq<Event>)
      returns (outcome: Outcome, code: ErrorCode, ghost trace': seq<Event>)
      requires Inv(world) && ScriptOk(id, script) && world == Run(start, trace)
      requires id in world.calls && world.calls[id].phase.Releasing?
      modifies this`world
      ensures world == Run(start, trace') && id in world.calls
      ensures world.calls[id] == old(world).calls[id].(phase := Done(outcome, code))
    {
      trace' := Interrupt(id, script.beforeRelease, trace, start);
      ghost var before := world;
      var phase := world.calls[id].phase;
      outcome, code := phase.outcome, phase.code;
      var session := new TokenStore(world.row);
      session.Release(phase.lease);
      world := Move(world.(row := session.row), id, Done(outcome, code));
      trace' := Extend(start, trace', Release(id), before);
    }

    /** The first transaction: claim, freshness checks, decrypt, renew; dropped as a whole on any error. */
    method ClaimOnce(id: CallId, claimAt: int, renewAt: int, token: nat, fault: Option<OauthError>, commit: Commit)
      requires Enabled(world, Claim(id, claimAt, renewAt, token, fault, commit))
      modifies this`world
      ensures world == Next(old(world), Claim(id, claimAt, renewAt, token, fault, commit))
      ensures id in world.calls && world.calls[id].posts == old(world).calls[id].posts
      ensures world.calls[id].phase.Done? || world.calls[id].phase.Stopped? || world.calls[id].phase.Leased?
    {
      var call := world.calls[id];
      var session := new TokenStore(world.row);
      var claimed := session.Claim(call.worker, claimAt, token, DEFAULT_REFRESH_LEASE_SECONDS);
      if claimed.Err? {
        world := Move(world, id, Done(Failure(claimed.error), Oauth(claimed.error)));
        return;
      }
      if UpToDate(session.row.value, call.phase, fault) {
        session.Release(claimed.value);
        if commit != RolledBack { world := world.(row := session.row, tokens := world.tokens + {token}); }
        world := Move(world, id, if commit == Committed then Done(Success, NoError) else Stopped);
        return;
      }
      if fault.Some? {
        world := Move(world, id, Done(Failure(fault.value), Oauth(fault.value)));
        return;
      }
      var renewed := session.Renew(claimed.value, renewAt, PRE_HTTP_REFRESH_LEASE_SECONDS);
      if renewed.Err? {
        world := Move(world, id, Done(Failure(renewed.error), Oauth(renewed.error)));
        return;
      }
      if commit == RolledBack {
        world := Move(world, id, Stopped);
        return;
      }
      var phase := if commit == Committed then Leased(renewed.value) else Stopped;
      world := world.(row := session.row, tokens := world.tokens + {token},
                      calls := world.calls[id := call.(phase := phase, pre := Some(session.row.value.pair))]);
    }

    /** The remote's side of the POST: it rotates on its current refresh token and refuses any other. */
    method Send(pre: TokenPair, wire: Wire) returns (response: Response)
      requires world.issued != []
      modifies this`world
      ensures world == old(world).(issued := if wire.Delivered? && Accepts(old(world), pre)
                                              then old(world).issued + [wire.next] else old(world).issued)
      ensures response == (match wire
                           case NotDelivered => NoResponse
                           case Refused(status) => Response(status, None)
                           case Delivered(next, answer) =>
                             if answer.Lost? then NoResponse
                             else if !Accepts(old(world), pre) then Response(400, None)
                             else match answer
                                  case Readable(expiresAt) => Response(200, Some((next, expiresAt)))
                                  case Status(status) => Response(status, None)
                                  case _ => Response(200, None))
    {
      match wire
      case NotDelivered => response := NoResponse;
      case Refused(status) => response := Response(status, None);
      case Delivered(next, answer) =>
        var accepted := Accepts(world, pre);
        if accepted { world := world.(issued := world.issued + [next]); }
        if answer.Lost? { return NoResponse; }
        if !accepted { return Response(400, None); }
        match answer
        case Readable(expiresAt) => response := Response(200, Some((next, expiresAt)));
        case Status(status) => response := Response(status, None);
        case _ => response := Response(200, None);
    }

    /** The one request of a call and what the client makes of its answer. */
    method PostOnce(id: CallId, wire: Wire)
      requires Enabled(world, Post(id, wire)) && world.row.Some?
      modifies this
      ensures world == Next(old(world), Post(id, wire)) && httpCalls == old(httpCalls) + ["REFRESH"]
      ensures id in world.calls && world.calls[id].posts == old(world).calls[id].posts + 1
      ensures || world.calls[id].phase.Releasing?
              || (world.calls[id].phase.Persisting? && world.calls[id].phase.attempt == 0)
    {
      var call := world.calls[id];
      var lease := call.phase.lease;
      httpCalls := httpCalls + ["REFRESH"];
      var response := Send(call.pre.value, wire);
      call := call.(posts := call.posts + 1);
      if response.NoResponse? {
        call := call.(phase := Releasing(lease, TransientError, Transport));
      } else if ClassifyStatus(response.status) != Success {
        call := call.(phase := Releasing(lease, ClassifyStatus(response.status), Http(response.status)));
      } else if response.pair.None? {
        call := call.(phase := Releasing(lease, TransientError, ResponseInvalid));
      } else {
        call := call.(phase := Persisting(lease, 0), got := Some(response.pair.value.0),
                      expiresAt := Some(response.pair.value.1));
      }
      world := world.(calls := world.calls[id := call]);
    }

    /** One transaction that rotates under the original lease; a stale lease sends the call to recovery. */
    method RotateOnce(id: CallId, at: int, fault: Option<OauthError>, commit: Commit) returns (reply: Reply)
      requires Enabled(world, Persist(id, at, fault, commit))
      modifies this`world
      ensures world == Next(old(world), Persist(id, at, fault, commit))
      ensures id in world.calls
      ensures world.calls[id] == old(world).calls[id].(phase := PhaseAfter(reply, old(world).calls[id].phase))
    {
      var call := world.calls[id];
      var (lease, attempt) := (call.phase.lease, call.phase.attempt);
      var session := new TokenStore(world.row);
      var r: Result<(), OauthError>;
      if fault.Some? {
        r := Err(fault.value);
      } else {
        r := session.Rotate(lease, call.got.value, call.expiresAt, at);
      }
      if r == Err(StaleLease) {
        reply := MustRecover;
        world := Move(world, id, Recovering(lease, attempt));
      } else {
        reply := Finish(id, session, r, commit);
      }
    }

    /** One transaction that adopts or claims a lease and rotates, if the row still holds the pre-refresh pair. */
    method RecoverOnce(id: CallId, at: int, token: nat, fault: Option<OauthError>, commit: Commit) returns (reply: Reply)
      requires Enabled(world, Recover(id, at, token, fault, commit)) && WellLeased(world.row)
      modifies this`world
      ensures world == Next(old(world), Recover(id, at, token, fault, commit))
      ensures !reply.MustRecover?
      ensures id in world.calls
      ensures world.calls[id] == old(world).calls[id].(phase := PhaseAfter(reply, old(world).calls[id].phase))
    {
      var call := world.calls[id];
      var session := new TokenStore(world.row);
      var r: Result<(), OauthError>;
      if fault.Some? {
        r := Err(fault.value);
      } else {
        r := session.RecoverRotateIfPreRefreshUnchanged(
          call.worker, call.pre.value, call.got.value, call.expiresAt, at, token);
      }
      if r.Ok? { world := world.(tokens := world.tokens + {token}); }
      reply := Finish(id, session, r, commit);
    }

    /** Commits the session, or drops it, and moves the call on. */
    method Finish(id: CallId, session: TokenStore, r: Result<(), OauthError>, commit: Commit) returns (reply: Reply)
      requires id in world.calls && (world.calls[id].phase.Persisting? || world.calls[id].phase.Recovering?)
      requires r.Ok? ==> session.row.Some?
      modifies this`world
      ensures var call := old(world).calls[id]; var (lease, attempt) := (call.phase.lease, call.phase.attempt);
              match r
              case Ok(_) => world == CommitPair(old(world), id, session.row.value, lease, attempt, commit)
              case Err(e) => world == Move(old(world), id, AfterPersistError(lease, attempt, e))
      ensures reply == (match r case Ok(_) => if commit == Committed then Stored else Broken case Err(e) => Failed(e))
    {
      var call := world.calls[id];
      var (lease, attempt) := (call.phase.lease, call.phase.attempt);
      if r.Err? {
        world := Move(world, id, AfterPersistError(lease, attempt, r.error));
        return Failed(r.error);
      }
      if commit != RolledBack {
        world := world.(row := session.row, stored := world.stored + [session.row.value.pair]);
      }
      if commit == Committed {
        world := Move(world, id, Done(Success, NoError));
        return Stored;
      }
      world := Move(world, id, Retry(lease, attempt));
      reply := Broken;
    }

    /** The loop of `_persist_rotated_tokens_after_200`: at most three attempts, others running in between. */
    method PersistAfter200(id: CallId, attempts: seq<Attempt>)
      returns (outcome: Outcome, code: ErrorCode, ghost trace: seq<Event>)
      requires |attempts| == POST_200_PERSIST_ATTEMPTS
      requires forall i :: 0 <= i < |attempts| ==> AttemptOk(id, attempts[i])
      requires Inv(world) && id in world.calls && world.calls[id].phase.Persisting?
      requires world.calls[id].phase.attempt == 0
      modifies this`world
      ensures world == Run(old(world), trace)
      ensures id in world.calls && world.calls[id] == old(world).calls[id].(phase := Done(outcome, code))
    {
      trace := [];
      assert Run(world, trace) == world;
      hide Inv, Run;
      ghost var start, call := world, world.calls[id];
      var lease := world.calls[id].phase.lease;
      var lastCode := RotatePersistFailed;
      for attempt := 0 to POST_200_PERSIST_ATTEMPTS
        invariant world == Run(start, trace) && Inv(world)
        invariant id in world.calls && world.calls[id] == call.(phase :=
                    if attempt < POST_200_PERSIST_ATTEMPTS then Persisting(lease, attempt)
                    else Done(PermanentError, Oauth(RotatePersistFailed)))
        invariant Transitory(lastCode) || lastCode == RotatePersistFailed
      {
        var reply;
        reply, trace := TryPersist(id, attempts[attempt], start, trace);
        PhaseOfReply(reply, Persisting(lease, attempt));
        hide PhaseAfter;
        if reply == Stored { return Success, NoError, trace; }
        if reply.Failed? && !Transitory(reply.error) {
          return PermanentError, Oauth(FinalCode(reply.error)), trace;
        }
        lastCode := if reply.Failed? then reply.error else RotatePersistFailed;
      }
      // Every code the loop can end with is reported as the one fixed code.
      outcome, code := PermanentError, Oauth(FinalCode(lastCode));
    }

    /** One attempt: rotate, and recover if the lease went stale. */
    method TryPersist(id: CallId, a: Attempt, ghost start: World, ghost trace: seq<Event>)
      returns (reply: Reply, ghost trace': seq<Event>)
      requires AttemptOk(id, a) && Inv(world) && world == Run(start, trace)
      requires id in world.calls && world.calls[id].phase.Persisting?
      modifies this`world
      ensures world == Run(start, trace') && Inv(world) && !reply.MustRecover?
      ensures id in world.calls
      ensures world.calls[id] == old(world).calls[id].(phase := PhaseAfter(reply, old(world).calls[id].phase))
    {
      hide Inv, Next, Run;
      trace' := Interrupt(id, a.before, trace, start);
      ghost var before := world;
      PersistReady(world, id);
      reply := RotateOnce(id, a.at, a.fault, a.commit);
      trace' := Extend(start, trace', Persist(id, a.at, a.fault, a.commit), before);
      if reply == MustRecover {
        // The rotate matched no row and locked none: others may run before recovery locks it.
        trace' := Interrupt(id, a.between, trace', start);
        before := world;
        PersistReady(world, id);
        var token := FreshToken();
        reply := RecoverOnce(id, a.recoverAt, token, a.recoverFault, a.recoverCommit);
        trace' := Extend(start, trace', Recover(id, a.recoverAt, token, a.recoverFault, a.recoverCommit), before);
      }
    }

    /** Lets other calls run. */
    method Interrupt(id: CallId, events: seq<Event>, ghost trace: seq<Event>, ghost start: World)
      returns (ghost trace': seq<Event>)
      requires NotOf(id, events) && id in world.calls && world == Run(start, trace) && Inv(world)
      modifies this`world
      ensures world == Run(old(world), events) && trace' == trace + events && world == Run(start, trace')
      ensures id in world.calls && world.calls[id] == old(world).calls[id] && Inv(world)
    {
      OthersLeaveCall(world, events, id);
      RunAppend(start, trace, events);
      RunKeepsInv(world, events);
      trace' := trace + events;
      world := Run(world, events);
    }

    /** Records a step this client has just made. */
    ghost method Extend(start: World, trace: seq<Event>, step: Event, before: World) returns (trace': seq<Event>)
      requires before == Run(start, trace) && world == Next(before, step) && Inv(before)
      ensures trace' == trace + [step] && world == Run(start, trace') && Inv(world)
    {
      trace' := trace + [step];
      RunAppend(start, trace, [step]);
      assert Run(before, [step]) == Next(before, step);
      NextKeepsInv(before, step);
    }
  }
}
