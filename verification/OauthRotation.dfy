/** The refresh protocol of many workers over one token row and one remote that takes each refresh token once. */
module OauthRotation {
  import opened Wrappers
  import opened OauthStore

  const POST_200_PERSIST_ATTEMPTS: nat := 3

  datatype Outcome = Success | TransientError | PermanentError | Unauthorized | Disabled

  function ClassifyStatus(status: int): Outcome {
    if 200 <= status < 300 then Success
    else if status in {400, 401, 403} then PermanentError
    else TransientError
  }

  datatype ErrorCode = NoError | Oauth(error: OauthError) | Transport | Http(status: int) | ResponseInvalid

  /** Where one call of refresh_tokens stands between two of its atomic steps. */
  datatype Phase =
    | Ready(cutoff: Option<int>, stillAccess: Option<string>)
    | Leased(lease: Lease)
    | Releasing(lease: Lease, outcome: Outcome, code: ErrorCode)
    | Persisting(lease: Lease, attempt: nat)
    | Recovering(lease: Lease, attempt: nat)
    | Done(outcome: Outcome, code: ErrorCode)
    | Stopped

  /** `pre` is the pair read under the lease, `got` the pair of a readable 200 answer. */
  datatype Call = Call(
    worker: string, phase: Phase, posts: nat,
    pre: Option<TokenPair>, got: Option<TokenPair>, expiresAt: Option<int>)

  type CallId = nat

  /**
   * `issued` is every pair the remote ever issued, its last one being current; `stored` is every pair the
   * row ever held. Both are history: no step of the protocol decides by them except the remote's.
   */
  datatype World = World(
    row: Option<Row>, issued: seq<TokenPair>, stored: seq<TokenPair>,
    calls: map<CallId, Call>, tokens: set<nat>)

  /** A commit may also fail, or succeed with its acknowledgement lost. */
  datatype Commit = Committed | RolledBack | AckLost

  /** What happens to one POST. A delivered POST is processed by the remote, whatever is answered. */
  datatype Wire =
    | NotDelivered
    | Refused(status: int)
    | Delivered(next: TokenPair, answer: Answer)

  datatype Answer = Readable(expiresAt: int) | Unreadable | Lost | Status(status: int)

  datatype Event =
    | Begin(id: CallId, worker: string, cutoff: Option<int>, stillAccess: Option<string>)
    | Claim(id: CallId, claimAt: int, renewAt: int, token: nat, fault: Option<OauthError>, commit: Commit)
    | Post(id: CallId, wire: Wire)
    | Release(id: CallId)
    | Persist(id: CallId, at: int, fault: Option<OauthError>, commit: Commit)
    | Recover(id: CallId, at: int, token: nat, fault: Option<OauthError>, commit: Commit)
    | Stop(id: CallId)

  function Current(w: World): TokenPair
    requires w.issued != []
  {
    w.issued[|w.issued| - 1]
  }

  predicate FreshPair(w: World, pair: TokenPair) {
    forall i :: 0 <= i < |w.issued| ==> w.issued[i].refresh != pair.refresh
  }

  /** StaleLease and RotateSuperseded are decided by the row, never by an injected crypto or store fault. */
  predicate Injectable(fault: Option<OauthError>) {
    fault.Some? ==> fault.value !in {RotateSuperseded, StaleLease, NotFound}
  }

  /** UUIDs and refresh tokens do not repeat: an event that would repeat one does not happen. */
  predicate Enabled(w: World, e: Event) {
    match e
    case Begin(id, _, _, _) => id !in w.calls
    case Claim(id, _, _, token, _, _) => id in w.calls && w.calls[id].phase.Ready? && token !in w.tokens
    case Post(id, wire) =>
      id in w.calls && w.calls[id].phase.Leased? && w.calls[id].pre.Some? && w.issued != []
      && (wire.Delivered? ==> FreshPair(w, wire.next))
      && (wire.Refused? ==> ClassifyStatus(wire.status) != Success)
      && (wire.Delivered? && wire.answer.Status? ==> ClassifyStatus(wire.answer.status) != Success)
    case Release(id) => id in w.calls && w.calls[id].phase.Releasing?
    case Persist(id, _, fault, _) =>
      id in w.calls && w.calls[id].phase.Persisting? && w.calls[id].got.Some? && Injectable(fault)
    case Recover(id, _, token, fault, _) =>
      id in w.calls && w.calls[id].phase.Recovering? && token !in w.tokens
      && w.calls[id].pre.Some? && w.calls[id].got.Some? && Injectable(fault)
    case Stop(id) => id in w.calls && !w.calls[id].phase.Done? && !w.calls[id].phase.Stopped?
  }

  function Move(w: World, id: CallId, phase: Phase): World
    requires id in w.calls
  {
    w.(calls := w.calls[id := w.calls[id].(phase := phase)])
  }

  /** The first transaction: claim, freshness checks, decrypt, renew. Any failure rolls all of it back. */
  function ClaimStep(w: World, e: Event): World
    requires e.Claim? && Enabled(w, e)
  {
    var call := w.calls[e.id];
    var claimed := Claimed(w.row, call.worker, e.claimAt, e.token, DEFAULT_REFRESH_LEASE_SECONDS);
    if claimed.Err? then Move(w, e.id, Done(Failure(claimed.error), Oauth(claimed.error))) else
    var (row, lease) := claimed.value;
    if UpToDate(row, call.phase, e.fault) then
      // Released in the same transaction: only the version bump remains.
      if e.commit == RolledBack then Move(w, e.id, Stopped) else
      var released := w.(row := Released(Some(row), lease), tokens := w.tokens + {e.token});
      Move(released, e.id, if e.commit == Committed then Done(Success, NoError) else Stopped)
    else if e.fault.Some? then Move(w, e.id, Done(Failure(e.fault.value), Oauth(e.fault.value))) else
    var renewed := Renewed(Some(row), lease, e.renewAt, PRE_HTTP_REFRESH_LEASE_SECONDS);
    if renewed.Err? then Move(w, e.id, Done(Failure(renewed.error), Oauth(renewed.error))) else
    if e.commit == RolledBack then Move(w, e.id, Stopped) else
    var (row', lease') := renewed.value;
    var phase := if e.commit == Committed then Leased(lease') else Stopped;
    w.(row := Some(row'), tokens := w.tokens + {e.token},
       calls := w.calls[e.id := call.(phase := phase, pre := Some(row'.pair))])
  }

  function Failure(error: OauthError): Outcome {
    if error == StaleLease then TransientError else PermanentError
  }

  /** Another fenced caller has already refreshed. The expiry is compared before decryption may fail, the token after. */
  predicate UpToDate(row: Row, phase: Phase, fault: Option<OauthError>)
    requires phase.Ready?
  {
    || (phase.cutoff.Some? && row.expiresAt.Some? && row.expiresAt.value > phase.cutoff.value)
    || (fault.None? && phase.stillAccess.Some? && row.pair.access != phase.stillAccess.value)
  }

  /** The remote processes a delivered refresh token: it rotates if the token is current. */
  function Accepts(w: World, pre: TokenPair): bool
    requires w.issued != []
  {
    pre.refresh == Current(w).refresh
  }

  function PostStep(w: World, e: Event): World
    requires e.Post? && Enabled(w, e)
  {
    var call := w.calls[e.id].(posts := w.calls[e.id].posts + 1);
    var lease := call.phase.lease;
    var give := (outcome: Outcome, code: ErrorCode) => call.(phase := Releasing(lease, outcome, code));
    match e.wire
    case NotDelivered => w.(calls := w.calls[e.id := give(TransientError, Transport)])
    case Refused(status) => w.(calls := w.calls[e.id := give(ClassifyStatus(status), Http(status))])
    case Delivered(next, answer) =>
      if !Accepts(w, call.pre.value) then
        var call' := if answer.Lost? then give(TransientError, Transport) else give(PermanentError, Http(400));
        w.(calls := w.calls[e.id := call'])
      else
        var call' :=
          match answer
          case Readable(expiresAt) => call.(phase := Persisting(lease, 0), got := Some(next), expiresAt := Some(expiresAt))
          case Unreadable => give(TransientError, ResponseInvalid)
          case Lost => give(TransientError, Transport)
          case Status(status) => give(ClassifyStatus(status), Http(status));
        w.(issued := w.issued + [next], calls := w.calls[e.id := call'])
  }

  /** After a failed persist attempt: try again while attempts remain. */
  function Retry(lease: Lease, attempt: nat): Phase {
    if attempt + 1 < POST_200_PERSIST_ATTEMPTS then Persisting(lease, attempt + 1)
    else Done(PermanentError, Oauth(RotatePersistFailed))
  }

  /** What an OAuth error of a persist attempt leads to. */
  function AfterPersistError(lease: Lease, attempt: nat, error: OauthError): Phase {
    match error
    case RotateSuperseded => Done(PermanentError, Oauth(RotateSuperseded))
    case StaleLease | StoreFailed | EncryptFailed | KeyUnavailable => Retry(lease, attempt)
    case NotFound => Done(PermanentError, Oauth(NotFound))
    case AccessDenied | RotatePersistFailed => Done(PermanentError, Oauth(RotatePersistFailed))
  }

  /** Stores a new row unless the commit failed; only an acknowledged commit ends in success. */
  function CommitPair(w: World, id: CallId, row: Row, lease: Lease, attempt: nat, commit: Commit): World
    requires id in w.calls
  {
    var phase := if commit == Committed then Done(Success, NoError) else Retry(lease, attempt);
    if commit == RolledBack then Move(w, id, phase)
    else Move(w.(row := Some(row), stored := w.stored + [row.pair]), id, phase)
  }

  function PersistStep(w: World, e: Event): World
    requires e.Persist? && Enabled(w, e)
  {
    var call := w.calls[e.id];
    var (lease, attempt) := (call.phase.lease, call.phase.attempt);
    if e.fault.Some? then Move(w, e.id, AfterPersistError(lease, attempt, e.fault.value)) else
    match Rotated(w.row, lease, call.got.value, call.expiresAt, e.at)
    case Ok(row) => CommitPair(w, e.id, row, lease, attempt, e.commit)
    case Err(_) => Move(w, e.id, Recovering(lease, attempt))
  }

  function RecoverStep(w: World, e: Event): World
    requires e.Recover? && Enabled(w, e)
  {
    var call := w.calls[e.id];
    var (lease, attempt) := (call.phase.lease, call.phase.attempt);
    if e.fault.Some? then Move(w, e.id, AfterPersistError(lease, attempt, e.fault.value)) else
    match Recovered(w.row, call.worker, call.pre.value, call.got.value, call.expiresAt, e.at)
    case Ok(row) => CommitPair(w.(tokens := w.tokens + {e.token}), e.id, row, lease, attempt, e.commit)
    case Err(error) => Move(w, e.id, AfterPersistError(lease, attempt, error))
  }

  function Next(w: World, e: Event): World {
    if !Enabled(w, e) then w else
    match e
    case Begin(id, worker, cutoff, stillAccess) =>
      w.(calls := w.calls[id := Call(worker, Ready(cutoff, stillAccess), 0, None, None, None)])
    case Claim(_, _, _, _, _, _) => ClaimStep(w, e)
    case Post(_, _) => PostStep(w, e)
    case Release(id) =>
      var phase := w.calls[id].phase;
      Move(w.(row := Released(w.row, phase.lease)), id, Done(phase.outcome, phase.code))
    case Persist(_, _, _, _) => PersistStep(w, e)
    case Recover(_, _, _, _, _) => RecoverStep(w, e)
    case Stop(id) => Move(w, id, Stopped)
  }

  function Run(w: World, events: seq<Event>): World
    decreases |events|
  {
    if events == [] then w else Run(Next(w, events[0]), events[1..])
  }

  // ---------------------------------------------------------------------------------------------
  // The invariant

  predicate DistinctRefresh(issued: seq<TokenPair>) {
    forall i, j :: 0 <= i < j < |issued| ==> issued[i].refresh != issued[j].refresh
  }

  /** The row holds the last stored pair; what was stored is what was issued, but for at most the last pair. */
  predicate StoreFollowsRemote(w: World) {
    && DistinctRefresh(w.issued)
    && WellLeased(w.row)
    && (w.row.None? ==> w.stored == [])
    && (w.row.Some? ==> w.stored != [] && w.row.value.pair == w.stored[|w.stored| - 1]
                        && (w.stored == w.issued || (w.issued != [] && w.stored == w.issued[..|w.issued| - 1]))
                        && (w.row.value.token.Some? ==> w.row.value.token.value in w.tokens))
  }

  /** `got` is the pair the remote issued next after `pre`. */
  predicate Successor(issued: seq<TokenPair>, pre: TokenPair, got: TokenPair) {
    exists k :: 0 <= k < |issued| - 1 && issued[k] == pre && issued[k + 1] == got
  }

  predicate HoldsLease(phase: Phase) {
    phase.Leased? || phase.Persisting? || phase.Recovering?
  }

  /** How a call may end once it has a readable 200 answer. */
  predicate Settled(w: World, call: Call)
    requires call.phase.Done? && call.got.Some?
  {
    || (call.phase == Done(Success, NoError) && call.got.value in w.stored)
    || (call.phase == Done(PermanentError, Oauth(RotateSuperseded)) && call.got.value in w.stored)
    || call.phase == Done(PermanentError, Oauth(RotatePersistFailed))
  }

  predicate CallOk(w: World, call: Call) {
    && (call.phase.Ready? ==> call.posts == 0 && call.pre.None?)
    && (call.phase.Leased? ==> call.posts == 0 && call.pre.Some? && call.got.None?)
    && (call.got.None? ==> !call.phase.Persisting? && !call.phase.Recovering?)
    && (call.got.Some? ==> !call.phase.Ready? && !call.phase.Releasing?)
    && call.posts <= 1
    && (call.pre.Some? ==> call.pre.value in w.stored && w.row.Some?)
    && (call.got.Some? ==> call.pre.Some? && Successor(w.issued, call.pre.value, call.got.value))
    && (HoldsLease(call.phase) ==>
          && call.pre.Some? && call.phase.lease.token in w.tokens
          && (w.row.value.token == Some(call.phase.lease.token) ==> w.row.value.pair == call.pre.value))
    && (call.got.Some? && call.phase.Done? ==> Settled(w, call))
  }

  /** No issued pair is handed to two calls. */
  predicate OneHolderEach(w: World) {
    forall i, j :: i in w.calls && j in w.calls && i != j && w.calls[i].got.Some? ==> w.calls[i].got != w.calls[j].got
  }

  predicate Inv(w: World) {
    && StoreFollowsRemote(w) && OneHolderEach(w)
    && forall id :: id in w.calls ==> CallOk(w, w.calls[id])
  }

  /** The row may still carry an old lease; nothing else has happened yet. */
  predicate Init(w: World) {
    && w.calls == map[] && DistinctRefresh(w.issued) && WellLeased(w.row)
    && (w.row.Some? ==> w.issued != [] && w.row.value.pair == Current(w) && w.stored == w.issued
                        && (w.row.value.token.Some? ==> w.row.value.token.value in w.tokens))
    && (w.row.None? ==> w.stored == [])
  }

  // ---------------------------------------------------------------------------------------------
  // Every step keeps it

  /** What a step of another call may do to the shared state without disturbing this one. */
  predicate Grows(w: World, w': World) {
    && w.stored <= w'.stored && w.issued <= w'.issued && w.tokens <= w'.tokens
    && (w.row.Some? ==> w'.row.Some?)
    && (w.row.Some? && w'.row.value.token.Some? && w'.row.value.token.value in w.tokens ==>
          w'.row.value.token == w.row.value.token && w'.row.value.pair == w.row.value.pair)
  }

  predicate LocalTo(w: World, w': World, id: CallId)
    requires id in w.calls
  {
    && id in w'.calls && w'.calls == w.calls[id := w'.calls[id]] && w'.calls[id].got == w.calls[id].got
    && Grows(w, w') && StoreFollowsRemote(w') && CallOk(w', w'.calls[id])
  }

  lemma SuccessorStays(issued: seq<TokenPair>, issued': seq<TokenPair>, pre: TokenPair, got: TokenPair)
    requires issued <= issued' && Successor(issued, pre, got)
    ensures Successor(issued', pre, got)
  {
    var k :| 0 <= k < |issued| - 1 && issued[k] == pre && issued[k + 1] == got;
    assert issued'[k] == pre && issued'[k + 1] == got;
  }

  lemma CallStays(w: World, w': World, call: Call)
    requires CallOk(w, call) && Grows(w, w')
    ensures CallOk(w', call)
  {
    if call.got.Some? { SuccessorStays(w.issued, w'.issued, call.pre.value, call.got.value); }
  }

  /** A step that touches call `id` only: the other calls stay as they were. */
  lemma OthersStay(w: World, w': World, id: CallId)
    requires Inv(w) && Grows(w, w') && id in w'.calls
    requires forall i :: i in w'.calls && i != id ==> i in w.calls && w'.calls[i] == w.calls[i]
    requires CallOk(w', w'.calls[id]) && StoreFollowsRemote(w')
    requires w'.calls[id].got.Some? ==>
               forall i :: i in w.calls && i != id ==> w.calls[i].got != w'.calls[id].got
    ensures Inv(w')
  {
    forall i | i in w'.calls && i != id ensures CallOk(w', w'.calls[i]) { CallStays(w, w', w.calls[i]); }
  }

  /** A call that only moves on: nothing shared changes. */
  lemma EndedIsLocal(w: World, id: CallId, phase: Phase)
    requires StoreFollowsRemote(w) && id in w.calls && CallOk(w, w.calls[id]) && w.calls[id].phase.Ready?
    requires phase.Done? || phase.Stopped?
    ensures LocalTo(w, Move(w, id, phase), id)
  {
  }

  /** A row under a fresh token, or under none, holding the same pair. */
  predicate Reclaimed(w: World, row: Row, token: nat) {
    && w.row.Some? && row.pair == w.row.value.pair && (row.owner.Some? ==> row.token.Some?)
    && (row.token.Some? ==> row.token.value == token)
  }

  lemma ReclaimedIsLocal(w: World, id: CallId, row: Row, token: nat, phase: Phase, pre: Option<TokenPair>)
    requires StoreFollowsRemote(w) && id in w.calls && CallOk(w, w.calls[id]) && w.calls[id].phase.Ready?
    requires Reclaimed(w, row, token) && token !in w.tokens
    requires phase.Done? || phase.Stopped? || (phase.Leased? && phase.lease.token == token && pre.Some?)
    requires pre.Some? ==> pre.value == row.pair
    ensures var w' := w.(row := Some(row), tokens := w.tokens + {token},
                         calls := w.calls[id := w.calls[id].(phase := phase, pre := pre)]);
            LocalTo(w, w', id)
  {
    assert row.pair == w.stored[|w.stored| - 1];
  }

  /** The claim transaction leaves the pair alone and puts a fresh token, or none, on the row. */
  lemma ClaimIsLocal(w: World, e: Event)
    requires StoreFollowsRemote(w) && e.Claim? && Enabled(w, e) && CallOk(w, w.calls[e.id])
    ensures LocalTo(w, Next(w, e), e.id)
  {
    var call := w.calls[e.id];
    var claimed := Claimed(w.row, call.worker, e.claimAt, e.token, DEFAULT_REFRESH_LEASE_SECONDS);
    if claimed.Err? {
      EndedIsLocal(w, e.id, Done(Failure(claimed.error), Oauth(claimed.error)));
      return;
    }
    var (row, lease) := claimed.value;
    var renewed := Renewed(Some(row), lease, e.renewAt, PRE_HTTP_REFRESH_LEASE_SECONDS);
    var upToDate := UpToDate(row, call.phase, e.fault);
    var success := if e.commit == Committed then Done(Success, NoError) else Stopped;
    if !upToDate && e.fault.Some? {
      EndedIsLocal(w, e.id, Done(Failure(e.fault.value), Oauth(e.fault.value)));
    } else if !upToDate && renewed.Err? {
      EndedIsLocal(w, e.id, Done(Failure(renewed.error), Oauth(renewed.error)));
    } else if e.commit == RolledBack {
      EndedIsLocal(w, e.id, Stopped);
    } else if upToDate {
      ReclaimedIsLocal(w, e.id, Unleased(row), e.token, success, call.pre);
    } else {
      ReclaimedIsLocal(w, e.id, renewed.value.0, e.token,
                       if e.commit == Committed then Leased(renewed.value.1) else Stopped, Some(row.pair));
    }
  }

  lemma ClaimKeepsInv(w: World, e: Event)
    requires Inv(w) && e.Claim? && Enabled(w, e)
    ensures Inv(Next(w, e))
  {
    ClaimIsLocal(w, e);
    OthersStay(w, Next(w, e), e.id);
  }

  /** A POST that yields no pair: the call must release. */
  lemma RefusedIsLocal(w: World, id: CallId, call: Call)
    requires StoreFollowsRemote(w) && id in w.calls && CallOk(w, w.calls[id]) && w.calls[id].phase.Leased?
    requires call.phase.Releasing? && call.got.None? && call.posts == 1 && call.pre == w.calls[id].pre
    ensures LocalTo(w, w.(calls := w.calls[id := call]), id)
  {
  }

  /** A POST the remote accepts: the next pair is issued, and at most this call has it. */
  lemma IssuedIsLocal(w: World, id: CallId, next: TokenPair, call: Call)
    requires StoreFollowsRemote(w) && id in w.calls && CallOk(w, w.calls[id]) && w.calls[id].phase.Leased?
    requires w.issued != [] && Accepts(w, w.calls[id].pre.value) && FreshPair(w, next)
    requires call.posts == 1 && call.pre == w.calls[id].pre
    requires || (call.phase.Releasing? && call.got.None?)
             || (call.phase == Persisting(w.calls[id].phase.lease, 0) && call.got == Some(next))
    ensures var w' := w.(issued := w.issued + [next], calls := w.calls[id := call]);
            Grows(w, w') && StoreFollowsRemote(w') && CallOk(w', call)
  {
    var pre := w.calls[id].pre.value;
    AcceptedOnlyInStep(w, pre);
    var issued := w.issued + [next];
    var k := |w.issued| - 1;
    assert issued[k] == pre && issued[k + 1] == next;
    assert w.stored == issued[..|issued| - 1];
  }

  /** One POST: nothing is issued, or the pair after the one it read, and then only this call has it. */
  lemma PostIsLocal(w: World, e: Event)
    requires StoreFollowsRemote(w) && e.Post? && Enabled(w, e) && CallOk(w, w.calls[e.id])
    ensures var w' := Next(w, e);
            && w'.calls == w.calls[e.id := w'.calls[e.id]]
            && (w'.calls[e.id].got.Some? ==> e.wire.Delivered? && w'.calls[e.id].got.value == e.wire.next)
            && Grows(w, w') && StoreFollowsRemote(w') && CallOk(w', w'.calls[e.id])
  {
    var call := Next(w, e).calls[e.id];
    if e.wire.Delivered? && Accepts(w, w.calls[e.id].pre.value) {
      IssuedIsLocal(w, e.id, e.wire.next, call);
    } else {
      RefusedIsLocal(w, e.id, call);
    }
  }

  lemma PostKeepsInv(w: World, e: Event)
    requires Inv(w) && e.Post? && Enabled(w, e)
    ensures Inv(Next(w, e))
  {
    PostIsLocal(w, e);
    var w' := Next(w, e);
    if w'.calls[e.id].got.Some? {
      forall i | i in w.calls && i != e.id && w.calls[i].got.Some?
        ensures w.calls[i].got.value != e.wire.next
      {
        GotIsIssued(w, i);
      }
    }
    OthersStay(w, w', e.id);
  }

  lemma GotIsIssued(w: World, id: CallId)
    requires Inv(w) && id in w.calls && w.calls[id].got.Some?
    ensures w.calls[id].got.value in w.issued
  {
  }

  /** The remote accepts a refresh token only while the row is in step with it: the pair was read from the row. */
  lemma AcceptedOnlyInStep(w: World, pre: TokenPair)
    requires StoreFollowsRemote(w) && w.row.Some? && w.issued != [] && pre in w.stored && Accepts(w, pre)
    ensures w.stored == w.issued && pre == Current(w)
  {
    var k :| 0 <= k < |w.stored| && w.stored[k] == pre;
    assert w.issued[k] == pre;
  }

  lemma ReleaseKeepsInv(w: World, e: Event)
    requires Inv(w) && e.Release? && Enabled(w, e)
    ensures Inv(Next(w, e))
  {
    OthersStay(w, Next(w, e), e.id);
  }

  /** The successor of the pair on the row is the one pair still missing from the store. */
  lemma StoringCatchesUp(w: World, pre: TokenPair, got: TokenPair)
    requires StoreFollowsRemote(w) && w.row.Some? && w.row.value.pair == pre && Successor(w.issued, pre, got)
    ensures w.stored + [got] == w.issued
  {
    var k :| 0 <= k < |w.issued| - 1 && w.issued[k] == pre && w.issued[k + 1] == got;
    var last := |w.stored| - 1;
    assert w.issued[last] == w.stored[last] == pre;
    assert k == last;
  }

  /** If the row has left `pre`, it left it for `got`: no other pair ever follows `pre`. */
  lemma SupersededByOwnPair(w: World, pre: TokenPair, got: TokenPair)
    requires StoreFollowsRemote(w) && w.row.Some? && pre in w.stored && w.row.value.pair != pre
    requires Successor(w.issued, pre, got)
    ensures got in w.stored
  {
    var k :| 0 <= k < |w.issued| - 1 && w.issued[k] == pre && w.issued[k + 1] == got;
    var j :| 0 <= j < |w.stored| && w.stored[j] == pre;
    assert w.issued[j] == pre;
    assert j == k && w.stored[k + 1] == got;
  }

  /** A failed or unacknowledged attempt only moves the call on. */
  lemma MoveIsLocal(w: World, id: CallId, phase: Phase)
    requires StoreFollowsRemote(w) && id in w.calls && CallOk(w, w.calls[id]) && w.calls[id].got.Some?
    requires HoldsLease(w.calls[id].phase) && !phase.Leased? && !phase.Ready? && !phase.Releasing?
    requires HoldsLease(phase) ==> phase.lease == w.calls[id].phase.lease
    requires phase.Done? ==> Settled(w, w.calls[id].(phase := phase))
    ensures LocalTo(w, Move(w, id, phase), id)
  {
    CallStays(w, Move(w, id, phase), w.calls[id]);
  }

  /** The one write of the protocol: it appends exactly the missing pair. */
  lemma CommitIsLocal(w: World, id: CallId, row: Row, lease: Lease, attempt: nat, commit: Commit)
    requires StoreFollowsRemote(w) && id in w.calls && CallOk(w, w.calls[id])
    requires HoldsLease(w.calls[id].phase) && w.calls[id].phase.lease == lease && w.calls[id].got.Some?
    requires w.row.Some? && w.row.value.pair == w.calls[id].pre.value && commit != RolledBack
    requires row.pair == w.calls[id].got.value && row.token.None? && row.owner.None?
    ensures LocalTo(w, CommitPair(w, id, row, lease, attempt, commit), id)
  {
    var (pre, got) := (w.calls[id].pre.value, w.calls[id].got.value);
    StoringCatchesUp(w, pre, got);
    assert got in w.stored + [got];
  }

  lemma PersistIsLocal(w: World, e: Event)
    requires StoreFollowsRemote(w) && e.Persist? && Enabled(w, e) && CallOk(w, w.calls[e.id])
    ensures LocalTo(w, Next(w, e), e.id)
  {
    var call := w.calls[e.id];
    var (lease, attempt) := (call.phase.lease, call.phase.attempt);
    var rotated := Rotated(w.row, lease, call.got.value, call.expiresAt, e.at);
    if e.fault.Some? { MoveIsLocal(w, e.id, AfterPersistError(lease, attempt, e.fault.value)); }
    else if rotated.Err? { MoveIsLocal(w, e.id, Recovering(lease, attempt)); }
    else if e.commit == RolledBack { MoveIsLocal(w, e.id, Retry(lease, attempt)); }
    else { CommitIsLocal(w, e.id, rotated.value, lease, attempt, e.commit); }
  }

  /** Spending a token changes nothing for anybody. */
  lemma SpendIsLocal(w: World, id: CallId, token: nat)
    requires StoreFollowsRemote(w) && id in w.calls && CallOk(w, w.calls[id])
    ensures LocalTo(w, w.(tokens := w.tokens + {token}), id)
  {
    CallStays(w, w.(tokens := w.tokens + {token}), w.calls[id]);
  }

  lemma LocalAfterSpend(w: World, token: nat, w': World, id: CallId)
    requires id in w.calls && LocalTo(w, w.(tokens := w.tokens + {token}), id)
    requires LocalTo(w.(tokens := w.tokens + {token}), w', id)
    ensures LocalTo(w, w', id)
  {
    hide CallOk, StoreFollowsRemote;
  }

  lemma RecoverIsLocal(w: World, e: Event)
    requires StoreFollowsRemote(w) && e.Recover? && Enabled(w, e) && CallOk(w, w.calls[e.id])
    ensures LocalTo(w, Next(w, e), e.id)
  {
    var call := w.calls[e.id];
    var (lease, attempt) := (call.phase.lease, call.phase.attempt);
    var recovered := Recovered(w.row, call.worker, call.pre.value, call.got.value, call.expiresAt, e.at);
    if e.fault.Some? || recovered.Err? {
      RecoverFails(w, e, if e.fault.Some? then e.fault.value else recovered.error);
    } else {
      var spent := w.(tokens := w.tokens + {e.token});
      SpendIsLocal(w, e.id, e.token);
      if e.commit == RolledBack { MoveIsLocal(spent, e.id, Retry(lease, attempt)); }
      else { CommitIsLocal(spent, e.id, recovered.value, lease, attempt, e.commit); }
      hide CallOk, StoreFollowsRemote;
      LocalAfterSpend(w, e.token, Next(w, e), e.id);
    }
  }

  lemma RecoverFails(w: World, e: Event, error: OauthError)
    requires StoreFollowsRemote(w) && e.Recover? && Enabled(w, e) && CallOk(w, w.calls[e.id])
    requires var call := w.calls[e.id];
             e.fault == Some(error)
             || Recovered(w.row, call.worker, call.pre.value, call.got.value, call.expiresAt, e.at) == Err(error)
    ensures LocalTo(w, Move(w, e.id, AfterPersistError(w.calls[e.id].phase.lease, w.calls[e.id].phase.attempt, error)), e.id)
  {
    var call := w.calls[e.id];
    if error == RotateSuperseded { SupersededByOwnPair(w, call.pre.value, call.got.value); }
    MoveIsLocal(w, e.id, AfterPersistError(call.phase.lease, call.phase.attempt, error));
  }

  lemma PersistKeepsInv(w: World, e: Event)
    requires Inv(w) && (e.Persist? || e.Recover?) && Enabled(w, e)
    ensures Inv(Next(w, e))
  {
    if e.Persist? { PersistIsLocal(w, e); } else { RecoverIsLocal(w, e); }
    OthersStay(w, Next(w, e), e.id);
  }

  lemma BeginKeepsInv(w: World, e: Event)
    requires Inv(w) && e.Begin? && Enabled(w, e)
    ensures Inv(Next(w, e)) && Grows(w, Next(w, e))
  {
    var w' := Next(w, e);
    assert w'.calls[e.id].got.None? && CallOk(w', w'.calls[e.id]);
    OthersStay(w, w', e.id);
  }

  lemma StopIsLocal(w: World, e: Event)
    requires StoreFollowsRemote(w) && e.Stop? && Enabled(w, e) && CallOk(w, w.calls[e.id])
    ensures LocalTo(w, Next(w, e), e.id)
  {
    CallStays(w, Next(w, e), w.calls[e.id]);
  }

  lemma StopKeepsInv(w: World, e: Event)
    requires Inv(w) && e.Stop? && Enabled(w, e)
    ensures Inv(Next(w, e)) && Grows(w, Next(w, e))
  {
    StopIsLocal(w, e);
    hide Next, CallOk, StoreFollowsRemote, Grows;
    OthersStay(w, Next(w, e), e.id);
  }

  lemma NextKeepsInv(w: World, e: Event)
    requires Inv(w)
    ensures Inv(Next(w, e)) && w.stored <= Next(w, e).stored && w.issued <= Next(w, e).issued
  {
    if Enabled(w, e) {
      if e.Begin? { BeginKeepsInv(w, e); }
      else if e.Stop? { StopKeepsInv(w, e); }
      else if e.Release? { ReleaseKeepsInv(w, e); }
      else { SharedStepKeepsInv(w, e); }
    }
  }

  lemma SharedStepKeepsInv(w: World, e: Event)
    requires Inv(w) && (e.Claim? || e.Post? || e.Persist? || e.Recover?) && Enabled(w, e)
    ensures Inv(Next(w, e)) && Grows(w, Next(w, e))
  {
    assert CallOk(w, w.calls[e.id]) && StoreFollowsRemote(w);
    hide Next, CallOk, StoreFollowsRemote;
    if e.Claim? { ClaimIsLocal(w, e); ClaimKeepsInv(w, e); }
    else if e.Post? { PostIsLocal(w, e); PostKeepsInv(w, e); }
    else if e.Persist? { PersistIsLocal(w, e); PersistKeepsInv(w, e); }
    else { RecoverIsLocal(w, e); PersistKeepsInv(w, e); }
  }

  // ---------------------------------------------------------------------------------------------
  // What holds over every run

  lemma {:induction false} RunKeepsInv(w: World, events: seq<Event>)
    requires Inv(w)
    ensures Inv(Run(w, events))
    ensures w.stored <= Run(w, events).stored && w.issued <= Run(w, events).issued
    decreases |events|
  {
    if events != [] {
      NextKeepsInv(w, events[0]);
      RunKeepsInv(Next(w, events[0]), events[1..]);
    }
  }

  predicate AtMostOneHolds(w: World, pair: TokenPair) {
    forall i, j :: i in w.calls && j in w.calls && w.calls[i].got == Some(pair) && w.calls[j].got == Some(pair) ==> i == j
  }

  /**
   * For any interleaving: the row holds the remote's current pair or its immediate predecessor, and in the
   * latter case at most one call holds the pair that is missing.
   */
  lemma StoredPairIsCurrentOrPredecessor(w: World, events: seq<Event>)
    requires Init(w) && w.row.Some?
    ensures var w' := Run(w, events);
            && w'.row.Some? && w'.issued != []
            && (|| w'.row.value.pair == Current(w')
                || (&& |w'.issued| >= 2 && w'.row.value.pair == w'.issued[|w'.issued| - 2]
                    && AtMostOneHolds(w', Current(w'))))
  {
    RunKeepsInv(w, events);
    var w' := Run(w, events);
    if w'.stored == w'.issued {
    } else {
      assert w'.stored[|w'.stored| - 1] == w'.issued[|w'.issued| - 2];
    }
  }

  lemma StoredIsIssuedButLast(w: World)
    requires Inv(w) && w.stored != []
    ensures w.stored <= w.issued && |w.issued| <= |w.stored| + 1
    ensures w.row.Some? && w.row.value.pair == w.stored[|w.stored| - 1]
  {
    hide CallOk;
  }

  /** Everything ever stored is, in order, everything ever issued, but for at most the last pair. */
  lemma StoreNeverMovesBack(w: World, events: seq<Event>, more: seq<Event>)
    requires Init(w) && w.row.Some?
    ensures Run(w, events).stored <= Run(Run(w, events), more).stored
    ensures var w' := Run(w, events);
            && w'.stored <= w'.issued && |w'.issued| <= |w'.stored| + 1
            && w'.row.Some? && w'.stored != [] && w'.row.value.pair == w'.stored[|w'.stored| - 1]
  {
    assert Inv(w) && w.stored != [];
    hide Inv, Run;
    RunKeepsInv(w, events);
    RunKeepsInv(Run(w, events), more);
    StoredIsIssuedButLast(Run(w, events));
  }

  /**
   * Each call posts at most once. With a readable 200 it ends in SUCCESS or ROTATE_SUPERSEDED only if its own
   * pair was stored, so ROTATE_SUPERSEDED can only mean a lost commit acknowledgement; otherwise the persist
   * attempts ran out.
   */
  lemma OutcomeAfter200(w: World, events: seq<Event>, id: CallId)
    requires Init(w) && id in Run(w, events).calls
    ensures var w' := Run(w, events); var call := w'.calls[id];
            && call.posts <= 1
            && (call.got.Some? && call.phase.Done? ==>
                  || (call.got.value in w'.stored && call.phase == Done(Success, NoError))
                  || (call.got.value in w'.stored && call.phase == Done(PermanentError, Oauth(RotateSuperseded)))
                  || call.phase == Done(PermanentError, Oauth(RotatePersistFailed)))
  {
    RunKeepsInv(w, events);
  }

  /** The remote is one pair ahead and every call that had that pair is over. */
  predicate Wedged(w: World) {
    && w.row.Some? && w.issued != [] && w.stored != w.issued
    && forall id :: id in w.calls && w.calls[id].got == Some(Current(w)) ==>
                      w.calls[id].phase.Done? || w.calls[id].phase.Stopped?
  }

  /** The residual window: once wedged, no run refreshes or stores anything again without an operator. */
  lemma {:induction false} WedgedForever(w: World, events: seq<Event>)
    requires Inv(w) && Wedged(w)
    ensures Run(w, events).stored == w.stored && Run(w, events).issued == w.issued && Wedged(Run(w, events))
    decreases |events|
  {
    if events != [] {
      var e := events[0];
      NextKeepsInv(w, e);
      WedgedStep(w, e);
      WedgedForever(Next(w, e), events[1..]);
    }
  }

  /** A step of one call that leaves row pair and remote alone, and leaves the call without the missing pair or over. */
  predicate Quiet(w: World, w': World, id: CallId)
    requires id in w.calls && w.issued != []
  {
    && w'.stored == w.stored && w'.issued == w.issued && (w.row.Some? ==> w'.row.Some?)
    && id in w'.calls && w'.calls == w.calls[id := w'.calls[id]]
    && (w'.calls[id].got == Some(Current(w)) ==> w'.calls[id].phase.Done? || w'.calls[id].phase.Stopped?)
  }

  lemma WedgedStep(w: World, e: Event)
    requires Inv(w) && Wedged(w)
    ensures Next(w, e).stored == w.stored && Next(w, e).issued == w.issued && Wedged(Next(w, e))
  {
    if Enabled(w, e) && !e.Begin? {
      assert CallOk(w, w.calls[e.id]) && StoreFollowsRemote(w);
      QuietWhileWedged(w, e);
      hide Next;
    }
  }

  lemma QuietWhileWedged(w: World, e: Event)
    requires StoreFollowsRemote(w) && w.row.Some? && w.issued != [] && w.stored != w.issued
    requires Enabled(w, e) && !e.Begin? && CallOk(w, w.calls[e.id])
    requires w.calls[e.id].got == Some(Current(w)) ==> w.calls[e.id].phase.Done? || w.calls[e.id].phase.Stopped?
    ensures Quiet(w, Next(w, e), e.id)
  {
    match e
    case Claim(_, _, _, _, _, _) => ClaimIsLocal(w, e); ClaimStoresNothing(w, e);
    case Post(_, _) => WedgedPost(w, e);
    case Release(_) =>
    case Persist(_, _, _, _) => WedgedPersist(w, e);
    case Recover(_, _, _, _, _) => WedgedPersist(w, e);
    case Stop(_) =>
  }

  lemma ClaimStoresNothing(w: World, e: Event)
    requires e.Claim? && Enabled(w, e)
    ensures Next(w, e).stored == w.stored && Next(w, e).issued == w.issued
  {
  }

  lemma WedgedPost(w: World, e: Event)
    requires StoreFollowsRemote(w) && w.row.Some? && w.stored != w.issued
    requires e.Post? && Enabled(w, e) && CallOk(w, w.calls[e.id])
    ensures var w' := Next(w, e);
            w'.stored == w.stored && w'.issued == w.issued && w'.row == w.row
            && w'.calls == w.calls[e.id := w'.calls[e.id]] && w'.calls[e.id].got.None?
  {
    var pre := w.calls[e.id].pre.value;
    if Accepts(w, pre) { AcceptedOnlyInStep(w, pre); }
  }

  lemma WedgedPersist(w: World, e: Event)
    requires StoreFollowsRemote(w) && w.row.Some? && w.issued != [] && w.stored != w.issued
    requires (e.Persist? || e.Recover?) && Enabled(w, e) && CallOk(w, w.calls[e.id])
    requires w.calls[e.id].got != Some(Current(w))
    ensures var w' := Next(w, e);
            w'.stored == w.stored && w'.issued == w.issued && w'.row == w.row
            && w'.calls == w.calls[e.id := w'.calls[e.id]] && w'.calls[e.id].got == w.calls[e.id].got
  {
    var (pre, got) := (w.calls[e.id].pre.value, w.calls[e.id].got.value);
    if w.row.value.pair == pre { StoringCatchesUp(w, pre, got); }
  }

  /** As long as the holder of the missing pair is alive, one undisturbed recovery puts the row back in step. */
  lemma RecoveryHeals(w: World, e: Event)
    requires Inv(w) && e.Recover? && Enabled(w, e) && e.fault.None? && e.commit == Committed
    requires w.stored != w.issued && w.calls[e.id].got == Some(Current(w))
    requires LeaseLive(w.row.value, e.at) ==> w.row.value.owner == Some(w.calls[e.id].worker)
    ensures Next(w, e).stored == Next(w, e).issued == w.issued
    ensures Next(w, e).row.value.pair == Current(w) && Next(w, e).calls[e.id].phase == Done(Success, NoError)
  {
    var (pre, got) := (w.calls[e.id].pre.value, w.calls[e.id].got.value);
    if w.row.value.pair == pre {
      StoringCatchesUp(w, pre, got);
    } else {
      SupersededByOwnPair(w, pre, got);
      NotYetStored(w, got);
      assert false;
    }
  }

  lemma NotYetStored(w: World, pair: TokenPair)
    requires StoreFollowsRemote(w) && w.row.Some? && w.issued != [] && w.stored != w.issued && pair == Current(w)
    ensures pair !in w.stored
  {
    forall k | 0 <= k < |w.stored| ensures w.stored[k] != pair {
      assert w.stored[k] == w.issued[k];
    }
  }

  // ---------------------------------------------------------------------------------------------
  // Progress

  /** The row under a fresh lease of this call, and the call about to post the pair it holds. */
  predicate HoldsFreshLease(w: World, id: CallId, worker: string, lease: Lease, pair: TokenPair) {
    && w.row.Some? && w.row.value.pair == pair && Fenced(w.row.value, lease, lease.until - 1)
    && w.row.value.until == Some(lease.until)
    && id in w.calls && w.calls[id] == Call(worker, Leased(lease), 0, Some(pair), None, None)
  }

  lemma ClaimGrantsLease(
    w: World, id: CallId, worker: string, cutoff: Option<int>, stillAccess: Option<string>,
    claimAt: int, renewAt: int, token: nat)
    requires w.row.Some? && id !in w.calls && token !in w.tokens
    requires !UpToDate(w.row.value, Ready(cutoff, stillAccess), None)
    requires !LeaseLive(w.row.value, claimAt) && renewAt < claimAt + DEFAULT_REFRESH_LEASE_SECONDS
    ensures var begun := Next(w, Begin(id, worker, cutoff, stillAccess));
            var w' := Next(begun, Claim(id, claimAt, renewAt, token, None, Committed));
            var lease := Lease(worker, token, w.row.value.version + 1, renewAt + PRE_HTTP_REFRESH_LEASE_SECONDS);
            && HoldsFreshLease(w', id, worker, lease, w.row.value.pair) && w'.issued == w.issued && w'.stored == w.stored
            && w'.tokens == w.tokens + {token}
  {
  }

  lemma PostGrantsPair(w: World, id: CallId, worker: string, lease: Lease, pair: TokenPair, next: TokenPair, expiresAt: int)
    requires HoldsFreshLease(w, id, worker, lease, pair) && w.issued != [] && Current(w) == pair && FreshPair(w, next)
    ensures var w' := Next(w, Post(id, Delivered(next, Readable(expiresAt))));
            && w'.row == w.row && w'.issued == w.issued + [next] && w'.stored == w.stored && w'.tokens == w.tokens
            && id in w'.calls && w'.calls[id] == Call(worker, Persisting(lease, 0), 1, Some(pair), Some(next), Some(expiresAt))
  {
  }

  /** The call holds the answer of a POST under its live lease, and the row is one pair behind. */
  predicate AboutToPersist(
    w: World, id: CallId, worker: string, lease: Lease, pair: TokenPair, next: TokenPair, expiresAt: int) {
    && w.row.Some? && w.row.value.pair == pair && Fenced(w.row.value, lease, lease.until - 1)
    && w.row.value.until == Some(lease.until)
    && id in w.calls && w.calls[id].worker == worker && w.calls[id].phase == Persisting(lease, 0)
    && w.calls[id].pre == Some(pair) && w.calls[id].got == Some(next) && w.calls[id].expiresAt == Some(expiresAt)
  }

  /** Begin, claim and post of one undisturbed call. */
  lemma UndisturbedUpToPost(
    w: World, id: CallId, worker: string, cutoff: Option<int>, stillAccess: Option<string>,
    claimAt: int, renewAt: int, token: nat, next: TokenPair, expiresAt: int)
    requires Inv(w) && w.row.Some? && w.stored == w.issued && id !in w.calls && token !in w.tokens && FreshPair(w, next)
    requires !UpToDate(w.row.value, Ready(cutoff, stillAccess), None)
    requires !LeaseLive(w.row.value, claimAt) && renewAt < claimAt + DEFAULT_REFRESH_LEASE_SECONDS
    ensures var w' := Run(w, [Begin(id, worker, cutoff, stillAccess), Claim(id, claimAt, renewAt, token, None, Committed),
                              Post(id, Delivered(next, Readable(expiresAt)))]);
            var lease := Lease(worker, token, w.row.value.version + 1, renewAt + PRE_HTTP_REFRESH_LEASE_SECONDS);
            && AboutToPersist(w', id, worker, lease, w.row.value.pair, next, expiresAt)
            && w'.stored == w.issued && w'.issued == w.issued + [next] && w'.tokens == w.tokens + {token}
  {
    var (a, b) := (Begin(id, worker, cutoff, stillAccess), Claim(id, claimAt, renewAt, token, None, Committed));
    var lease := Lease(worker, token, w.row.value.version + 1, renewAt + PRE_HTTP_REFRESH_LEASE_SECONDS);
    ClaimGrantsLease(w, id, worker, cutoff, stillAccess, claimAt, renewAt, token);
    assert Current(w) == w.row.value.pair;
    PostGrantsPair(Next(Next(w, a), b), id, worker, lease, w.row.value.pair, next, expiresAt);
    hide Next, Inv;
    RunThree(w, a, b, Post(id, Delivered(next, Readable(expiresAt))));
  }

  lemma RunThree(w: World, a: Event, b: Event, c: Event)
    ensures Run(w, [a, b, c]) == Next(Next(Next(w, a), b), c)
  {
    hide Next;
    var (w1, w2) := (Next(w, a), Next(Next(w, a), b));
    assert [a, b, c][1..] == [b, c] && [b, c][1..] == [c] && [c][1..] == [];
    assert Run(w2, [c]) == Run(Next(w2, c), []);
    assert Run(w1, [b, c]) == Run(w2, [c]);
  }

  lemma RunOne(w: World, a: Event)
    ensures Run(w, [a]) == Next(w, a)
  {
    hide Next;
    assert [a][1..] == [] && Run(Next(w, a), []) == Next(w, a);
  }

  /**
   * From any reachable state in step with the remote, on a free lease and with nothing newer found, an undisturbed
   * call refreshes and stores.
   */
  lemma UndisturbedRefreshStores(
    w: World, id: CallId, worker: string, cutoff: Option<int>, stillAccess: Option<string>,
    claimAt: int, renewAt: int, persistAt: int, token: nat, next: TokenPair, expiresAt: int)
    requires Inv(w) && w.row.Some? && w.stored == w.issued && id !in w.calls && token !in w.tokens && FreshPair(w, next)
    requires !UpToDate(w.row.value, Ready(cutoff, stillAccess), None)
    requires !LeaseLive(w.row.value, claimAt) && renewAt < claimAt + DEFAULT_REFRESH_LEASE_SECONDS
    requires persistAt < renewAt + PRE_HTTP_REFRESH_LEASE_SECONDS
    ensures var posted := Run(w, [Begin(id, worker, cutoff, stillAccess),
                                  Claim(id, claimAt, renewAt, token, None, Committed),
                                  Post(id, Delivered(next, Readable(expiresAt)))]);
            var w' := Run(posted, [Persist(id, persistAt, None, Committed)]);
            && id in w'.calls && w'.calls[id].phase == Done(Success, NoError)
            && w'.stored == w'.issued == w.issued + [next] && w'.tokens == w.tokens + {token}
            && w'.row.Some? && w'.row.value.pair == next && w'.row.value.expiresAt == Some(expiresAt)
            && w'.row.value.owner.None?
  {
    var lease := Lease(worker, token, w.row.value.version + 1, renewAt + PRE_HTTP_REFRESH_LEASE_SECONDS);
    UndisturbedUpToPost(w, id, worker, cutoff, stillAccess, claimAt, renewAt, token, next, expiresAt);
    var posted := Run(w, [Begin(id, worker, cutoff, stillAccess), Claim(id, claimAt, renewAt, token, None, Committed),
                          Post(id, Delivered(next, Readable(expiresAt)))]);
    hide Run, Inv, Next;
    PersistStores(posted, id, worker, lease, w.row.value.pair, next, expiresAt, persistAt);
    RunOne(posted, Persist(id, persistAt, None, Committed));
  }

  lemma PersistStores(
    w: World, id: CallId, worker: string, lease: Lease, pair: TokenPair, next: TokenPair, expiresAt: int, at: int)
    requires AboutToPersist(w, id, worker, lease, pair, next, expiresAt) && at < lease.until
    ensures var w' := Next(w, Persist(id, at, None, Committed));
            && w'.issued == w.issued && w'.stored == w.stored + [next]
            && id in w'.calls && w'.calls[id].phase == Done(Success, NoError) && w'.tokens == w.tokens
            && w'.row.Some? && w'.row.value.pair == next && w'.row.value.expiresAt == Some(expiresAt)
            && w'.row.value.owner.None?
  {
  }

  /**
   * A refresh that succeeded and is reported as a failure: the commit's acknowledgement is lost, the retry finds its
   * own lease gone, and recovery finds its own pair. The call ends ROTATE_SUPERSEDED with the row in step.
   */
  lemma LostAcknowledgementReportsSuperseded(
    w: World, id: CallId, worker: string, cutoff: Option<int>, stillAccess: Option<string>,
    claimAt: int, renewAt: int, persistAt: int, token: nat, token': nat, next: TokenPair, expiresAt: int)
    requires Inv(w) && w.row.Some? && w.stored == w.issued && id !in w.calls && FreshPair(w, next)
    requires token !in w.tokens && token' !in w.tokens && token' != token
    requires !UpToDate(w.row.value, Ready(cutoff, stillAccess), None)
    requires !LeaseLive(w.row.value, claimAt) && renewAt < claimAt + DEFAULT_REFRESH_LEASE_SECONDS
    requires persistAt < renewAt + PRE_HTTP_REFRESH_LEASE_SECONDS
    ensures var posted := Run(w, [Begin(id, worker, cutoff, stillAccess),
                                  Claim(id, claimAt, renewAt, token, None, Committed),
                                  Post(id, Delivered(next, Readable(expiresAt)))]);
            var w' := Run(posted, [Persist(id, persistAt, None, AckLost), Persist(id, persistAt, None, Committed),
                                   Recover(id, persistAt, token', None, Committed)]);
            && id in w'.calls && w'.calls[id].phase == Done(PermanentError, Oauth(RotateSuperseded))
            && w'.stored == w'.issued == w.issued + [next] && w'.row.Some? && w'.row.value.pair == next
  {
    var lease := Lease(worker, token, w.row.value.version + 1, renewAt + PRE_HTTP_REFRESH_LEASE_SECONDS);
    UndisturbedUpToPost(w, id, worker, cutoff, stillAccess, claimAt, renewAt, token, next, expiresAt);
    assert next.refresh != Current(w).refresh && Current(w) == w.row.value.pair;
    var posted := Run(w, [Begin(id, worker, cutoff, stillAccess), Claim(id, claimAt, renewAt, token, None, Committed),
                          Post(id, Delivered(next, Readable(expiresAt)))]);
    hide Run, Inv, Next;
    AckLostThenSuperseded(posted, id, worker, lease, w.row.value.pair, next, expiresAt, persistAt, token');
    RunThree(posted, Persist(id, persistAt, None, AckLost), Persist(id, persistAt, None, Committed),
             Recover(id, persistAt, token', None, Committed));
  }

  lemma AckLostThenSuperseded(
    w: World, id: CallId, worker: string, lease: Lease, pair: TokenPair, next: TokenPair, expiresAt: int, at: int,
    token': nat)
    requires AboutToPersist(w, id, worker, lease, pair, next, expiresAt) && at < lease.until && next != pair && token' !in w.tokens
    ensures var lost := Next(w, Persist(id, at, None, AckLost));
            var stale := Next(lost, Persist(id, at, None, Committed));
            var w' := Next(stale, Recover(id, at, token', None, Committed));
            && id in w'.calls && w'.calls[id].phase == Done(PermanentError, Oauth(RotateSuperseded))
            && w'.issued == w.issued && w'.stored == w.stored + [next] && w'.row.Some? && w'.row.value.pair == next
  {
    var lost := Next(w, Persist(id, at, None, AckLost));
    assert lost.row.Some? && lost.row.value.pair == next && lost.row.value.token.None? && lost.tokens == w.tokens;
    assert lost.calls[id] == w.calls[id].(phase := Persisting(lease, 1)) && lost.stored == w.stored + [next];
    var stale := Next(lost, Persist(id, at, None, Committed));
    assert stale == Move(lost, id, Recovering(lease, 1));
  }

  // ---------------------------------------------------------------------------------------------
  // Healing without an operator

  /** When no lease is live any more, a holder about to persist goes on to recovery. */
  lemma LatePersistRecovers(w: World, id: CallId, at: int)
    requires id in w.calls && w.calls[id].phase.Persisting? && w.calls[id].got.Some?
    requires w.row.Some? && !(w.row.value.until.Some? && w.row.value.until.value > at)
    ensures Next(w, Persist(id, at, None, Committed))
            == Move(w, id, Recovering(w.calls[id].phase.lease, w.calls[id].phase.attempt))
  {
  }

  /** A time at which no lease of the row is live. */
  function Late(w: World): int {
    if w.row.Some? && w.row.value.until.Some? then w.row.value.until.value else 0
  }

  lemma RecoveringHolderHeals(w: World, id: CallId)
    requires Inv(w) && w.row.Some? && w.stored != w.issued && w.issued != []
    requires id in w.calls && w.calls[id].phase.Recovering? && w.calls[id].got == Some(Current(w))
    ensures exists events :: Run(w, events).stored == Run(w, events).issued
  {
    assert CallOk(w, w.calls[id]);
    var token := UnusedToken(w.tokens);
    var e := Recover(id, Late(w), token, None, Committed);
    RecoveryHeals(w, e);
    RunOne(w, e);
    hide Next, Run, Inv;
    assert Run(w, [e]).stored == Run(w, [e]).issued;
  }

  lemma UnusedToken(tokens: set<nat>) returns (token: nat)
    ensures token !in tokens && forall t <- tokens :: t < token
  {
    if tokens == {} {
      token := 0;
    } else {
      var t :| t in tokens;
      var rest := UnusedToken(tokens - {t});
      token := if rest > t then rest else t + 1;
      forall x | x in tokens ensures x < token {
        if x != t { assert x in tokens - {t}; }
      }
    }
  }

  lemma MoveKeepsHolder(w: World, id: CallId)
    requires Inv(w) && id in w.calls && w.calls[id].phase.Persisting?
    ensures Inv(Move(w, id, Recovering(w.calls[id].phase.lease, w.calls[id].phase.attempt)))
  {
    assert CallOk(w, w.calls[id]);
    var w' := Move(w, id, Recovering(w.calls[id].phase.lease, w.calls[id].phase.attempt));
    MoveIsLocal(w, id, Recovering(w.calls[id].phase.lease, w.calls[id].phase.attempt));
    OthersStay(w, w', id);
  }

  lemma PersistingHolderHeals(w: World, id: CallId)
    requires Inv(w) && w.row.Some? && w.stored != w.issued && w.issued != []
    requires id in w.calls && w.calls[id].phase.Persisting? && w.calls[id].got == Some(Current(w))
    ensures exists events :: Run(w, events).stored == Run(w, events).issued
  {
    var e := Persist(id, Late(w), None, Committed);
    LatePersistRecovers(w, id, Late(w));
    MoveKeepsHolder(w, id);
    var w' := Next(w, e);
    RecoveringHolderHeals(w', id);
    var events :| Run(w', events).stored == Run(w', events).issued;
    hide Next, Inv;
    assert ([e] + events)[0] == e && ([e] + events)[1..] == events;
    assert Run(w, [e] + events) == Run(w', events);
  }

  lemma LiveHolderStillWorks(w: World)
    requires Inv(w) && w.row.Some? && w.stored != w.issued && !Wedged(w)
    ensures w.issued != []
    ensures exists id :: && id in w.calls && w.calls[id].got == Some(Current(w))
                         && (w.calls[id].phase.Persisting? || w.calls[id].phase.Recovering?)
  {
    assert StoreFollowsRemote(w);
    var id :| && id in w.calls && w.calls[id].got == Some(Current(w))
              && !w.calls[id].phase.Done? && !w.calls[id].phase.Stopped?;
    assert CallOk(w, w.calls[id]);
  }

  /**
   * The residual window, exactly: with the row one pair behind, some run puts it back in step without an operator
   * iff a holder of the missing pair is still alive.
   */
  lemma HealsIffNotWedged(w: World)
    requires Inv(w) && w.row.Some? && w.stored != w.issued
    ensures (exists events :: Run(w, events).stored == Run(w, events).issued) <==> !Wedged(w)
  {
    if Wedged(w) {
      forall events ensures Run(w, events).stored != Run(w, events).issued {
        WedgedForever(w, events);
      }
    } else {
      LiveHolderStillWorks(w);
      hide Inv, Run, Wedged;
      var id :| && id in w.calls && w.calls[id].got == Some(Current(w))
                && (w.calls[id].phase.Persisting? || w.calls[id].phase.Recovering?);
      if w.calls[id].phase.Persisting? { PersistingHolderHeals(w, id); } else { RecoveringHolderHeals(w, id); }
    }
  }

  // ---------------------------------------------------------------------------------------------
  // How a call ends

  /** The statuses the client takes for a final refusal. */
  predicate RefusedForGood(status: int) {
    status == 400 || status == 401 || status == 403
  }

  /** The remote took the refresh token. */
  predicate TakenBy(w: World, id: CallId, wire: Wire)
    requires id in w.calls && w.calls[id].pre.Some? && w.issued != []
  {
    wire.Delivered? && Accepts(w, w.calls[id].pre.value)
  }

  /** A call whose POST brought no pair releases its lease, leaves what is stored, and says why by the wire alone. */
  lemma FailedExchangeEnds(w: World, id: CallId, wire: Wire)
    requires Enabled(w, Post(id, wire)) && w.row.Some?
    requires !(TakenBy(w, id, wire) && wire.answer.Readable?)
    ensures var lease := w.calls[id].phase.lease;
            var w' := Next(Next(w, Post(id, wire)), Release(id));
            && id in w'.calls && w'.calls[id].phase.Done? && w'.calls[id].got == w.calls[id].got
            && var (outcome, code) := (w'.calls[id].phase.outcome, w'.calls[id].phase.code);
               && (outcome == PermanentError <==>
                     || (wire.Refused? && RefusedForGood(wire.status))
                     || (wire.Delivered? && !TakenBy(w, id, wire) && !wire.answer.Lost?)
                     || (TakenBy(w, id, wire) && wire.answer.Status? && RefusedForGood(wire.answer.status)))
               && (outcome == PermanentError || outcome == TransientError)
               && (code == Transport <==> wire.NotDelivered? || (wire.Delivered? && wire.answer.Lost?))
               && (code == ResponseInvalid <==> TakenBy(w, id, wire) && wire.answer.Unreadable?)
               && (wire.Refused? ==> code == Http(wire.status))
               && w'.row.Some? && w'.row.value.pair == w.row.value.pair && w'.row.value.expiresAt == w.row.value.expiresAt
               && !(w'.row.value.token == Some(lease.token) && w'.row.value.version == lease.version)
               && w'.stored == w.stored
  {
  }

  predicate Passing(error: OauthError) {
    error == StoreFailed || error == EncryptFailed || error == KeyUnavailable
  }

  /** A persist or recover transaction that failed without a verdict: a passing fault, a foreign lease, or the commit. */
  predicate AttemptBroken(w: World, e: Event)
    requires (e.Persist? || e.Recover?) && Enabled(w, e) && w.row.Some?
  {
    var call := w.calls[e.id];
    if e.fault.Some? then Passing(e.fault.value)
    else if e.Persist? then Fenced(w.row.value, call.phase.lease, e.at) && e.commit != Committed
    else w.row.value.pair == call.pre.value
         && ((LeaseLive(w.row.value, e.at) && w.row.value.owner != Some(call.worker)) || e.commit != Committed)
  }

  /** After 200 a broken attempt is repeated while fewer than three were made; the last one ends the call. */
  lemma BrokenAttemptIsRepeated(w: World, e: Event)
    requires (e.Persist? || e.Recover?) && Enabled(w, e) && w.row.Some?
    ensures var (was, now) := (w.calls[e.id].phase, Next(w, e).calls[e.id].phase);
            && (now == Persisting(was.lease, was.attempt + 1) <==> AttemptBroken(w, e) && was.attempt < 2)
            && (now == Done(PermanentError, Oauth(RotatePersistFailed)) <==>
                  || (AttemptBroken(w, e) && was.attempt >= 2)
                  || e.fault == Some(AccessDenied) || e.fault == Some(RotatePersistFailed))
            && (now == Recovering(was.lease, was.attempt) <==>
                  e.Persist? && e.fault.None? && !Fenced(w.row.value, was.lease, e.at))
            && (now == Done(PermanentError, Oauth(RotateSuperseded)) <==>
                  e.Recover? && e.fault.None? && w.row.value.pair != w.calls[e.id].pre.value)
  {
  }

  /** How the first transaction refuses: a live lease is passing, everything else is not, and nothing is written. */
  lemma ClaimRefusals(w: World, e: Event)
    requires e.Claim? && Enabled(w, e) && w.calls[e.id].phase.Ready? && e.renewAt < e.claimAt + DEFAULT_REFRESH_LEASE_SECONDS
    ensures var now := Next(w, e).calls[e.id].phase;
            && (now == Done(PermanentError, Oauth(NotFound)) <==>
                  w.row.None? || (!LeaseLive(w.row.value, e.claimAt) && e.fault == Some(NotFound)
                                  && !UpToDate(w.row.value, w.calls[e.id].phase, e.fault)))
            && (w.row.Some? && LeaseLive(w.row.value, e.claimAt) ==> now == Done(TransientError, Oauth(StaleLease)))
            && (now.Done? && now.outcome != Success ==> Next(w, e).row == w.row)
            && (now.Leased? ==> now.lease.until == e.renewAt + PRE_HTTP_REFRESH_LEASE_SECONDS)
  {
  }

  // ---------------------------------------------------------------------------------------------
  // The stored expiry

  /** Once the pair of a call is on the row, the row's expiry is the one the call was answered. */
  predicate ExpiryOk(w: World) {
    forall id :: id in w.calls && w.calls[id].got.Some? ==>
      && w.calls[id].expiresAt.Some?
      && (w.row.Some? && w.row.value.pair == w.calls[id].got.value ==> w.row.value.expiresAt == w.calls[id].expiresAt)
  }

  /** A step that leaves pair and expiry of the row alone, and what the calls were answered. */
  predicate AnswersKept(w: World, w': World) {
    && (w.row.Some? <==> w'.row.Some?)
    && (w.row.Some? ==> w'.row.value.pair == w.row.value.pair && w'.row.value.expiresAt == w.row.value.expiresAt)
    && (forall id :: id in w'.calls && w'.calls[id].got.Some? ==>
          id in w.calls && w'.calls[id].got == w.calls[id].got && w'.calls[id].expiresAt == w.calls[id].expiresAt)
  }

  lemma ClaimKeepsAnswers(w: World, e: Event)
    requires e.Claim? && Enabled(w, e) && w.calls[e.id].got.None?
    ensures AnswersKept(w, Next(w, e))
  {
  }

  lemma QuietStepKeepsAnswers(w: World, e: Event)
    requires Enabled(w, e) && (e.Begin? || e.Release? || e.Stop?)
    ensures AnswersKept(w, Next(w, e))
  {
  }

  /** A POST leaves the row alone, and an answer it brings is new and has an expiry. */
  lemma PostAnswers(w: World, e: Event)
    requires StoreFollowsRemote(w) && e.Post? && Enabled(w, e) && CallOk(w, w.calls[e.id])
    ensures var w' := Next(w, e);
            && w'.row == w.row && e.id in w'.calls && w'.calls == w.calls[e.id := w'.calls[e.id]]
            && (w'.calls[e.id].got.Some? ==> w'.calls[e.id].expiresAt.Some? && w'.calls[e.id].got.value == e.wire.next)
            && (w.row.Some? && e.wire.Delivered? ==> w.row.value.pair != e.wire.next)
  {
    if w.row.Some? && e.wire.Delivered? {
      var last := |w.stored| - 1;
      assert w.stored[last] == w.issued[last];
    }
  }

  lemma PostKeepsExpiry(w: World, e: Event)
    requires Inv(w) && ExpiryOk(w) && e.Post? && Enabled(w, e)
    ensures ExpiryOk(Next(w, e))
  {
    assert CallOk(w, w.calls[e.id]) && StoreFollowsRemote(w);
    PostIsLocal(w, e);
    hide Next, Inv, CallOk, StoreFollowsRemote, Grows, Enabled;
    PostAnswers(w, e);
  }

  /** What a persist or recover step does to the row and to its call. */
  predicate StoresOwnAnswer(w: World, w': World, id: CallId)
    requires id in w.calls && w.calls[id].got.Some?
  {
    && id in w'.calls && w'.calls == w.calls[id := w'.calls[id]]
    && w'.calls[id].got == w.calls[id].got && w'.calls[id].expiresAt == w.calls[id].expiresAt
    && (|| w'.row == w.row
        || (&& w'.row.Some? && w'.row.value.pair == w.calls[id].got.value
            && w'.row.value.expiresAt == w.calls[id].expiresAt))
  }

  lemma PersistStoresOwnAnswer(w: World, e: Event)
    requires (e.Persist? || e.Recover?) && Enabled(w, e)
    ensures StoresOwnAnswer(w, Next(w, e), e.id)
  {
  }

  lemma NextKeepsExpiry(w: World, e: Event)
    requires Inv(w) && ExpiryOk(w)
    ensures ExpiryOk(Next(w, e))
  {
    if Enabled(w, e) {
      if e.Post? {
        PostKeepsExpiry(w, e);
      } else if e.Persist? || e.Recover? {
        assert OneHolderEach(w);
        PersistStoresOwnAnswer(w, e);
        hide Next, Inv, Enabled;
      } else if e.Claim? {
        assert CallOk(w, w.calls[e.id]);
        ClaimKeepsAnswers(w, e);
        hide Next, Inv, Enabled;
      } else {
        QuietStepKeepsAnswers(w, e);
        hide Next, Inv, Enabled;
      }
    }
  }

  /** Over every interleaving: whoever's pair is on the row, its expiry is there too. */
  lemma {:induction false} StoredExpiryIsTheAnswered(w: World, events: seq<Event>)
    requires Inv(w) && ExpiryOk(w)
    ensures ExpiryOk(Run(w, events))
    decreases |events|
  {
    if events != [] {
      NextKeepsInv(w, events[0]);
      NextKeepsExpiry(w, events[0]);
      hide Next, Inv, ExpiryOk;
      StoredExpiryIsTheAnswered(Next(w, events[0]), events[1..]);
    }
  }

  /** The row already holds something newer than the caller asked about. */
  predicate Newer(row: Row, cutoff: Option<int>, stillAccess: Option<string>) {
    || (cutoff.Some? && row.expiresAt.Some? && cutoff.value < row.expiresAt.value)
    || (stillAccess.Some? && stillAccess.value != row.pair.access)
  }

  /**
   * On a free row a call without faults sends a request iff the row holds nothing newer than it asked about;
   * otherwise it succeeds at once and frees the row.
   */
  lemma RequestsIffNothingNewer(
    w: World, id: CallId, worker: string, cutoff: Option<int>, stillAccess: Option<string>, claimAt: int, renewAt: int,
    token: nat)
    requires w.row.Some? && id !in w.calls && token !in w.tokens && !LeaseLive(w.row.value, claimAt)
    requires renewAt < claimAt + DEFAULT_REFRESH_LEASE_SECONDS
    ensures var w' := Next(Next(w, Begin(id, worker, cutoff, stillAccess)),
                           Claim(id, claimAt, renewAt, token, None, Committed));
            && id in w'.calls && w'.calls[id].posts == 0 && w'.issued == w.issued && w'.stored == w.stored && w'.row.Some?
            && w'.row.value.pair == w.row.value.pair && w'.row.value.expiresAt == w.row.value.expiresAt
            && (if Newer(w.row.value, cutoff, stillAccess)
                then w'.calls[id].phase == Done(Success, NoError) && w'.row.value.owner.None?
                else w'.calls[id].phase.Leased? && w'.calls[id].pre == Some(w.row.value.pair))
  {
  }

  /** So after an undisturbed refresh a proactive caller whose cutoff is before the new expiry does not refresh again. */
  lemma RefreshedOnceIsEnough(
    w: World, id: CallId, worker: string, claimAt: int, renewAt: int, persistAt: int, token: nat,
    next: TokenPair, expiresAt: int,
    id': CallId, worker': string, cutoff: int, stillAccess: Option<string>, claimAt': int, renewAt': int, token': nat)
    requires Inv(w) && w.row.Some? && w.stored == w.issued && id !in w.calls && token !in w.tokens && FreshPair(w, next)
    requires !LeaseLive(w.row.value, claimAt) && renewAt < claimAt + DEFAULT_REFRESH_LEASE_SECONDS
    requires persistAt < renewAt + PRE_HTTP_REFRESH_LEASE_SECONDS
    requires cutoff < expiresAt && token' !in w.tokens && token' != token
    requires renewAt' < claimAt' + DEFAULT_REFRESH_LEASE_SECONDS
    ensures var posted := Run(w, [Begin(id, worker, None, None), Claim(id, claimAt, renewAt, token, None, Committed),
                                  Post(id, Delivered(next, Readable(expiresAt)))]);
            var refreshed := Run(posted, [Persist(id, persistAt, None, Committed)]);
            id' !in refreshed.calls ==>
              var w' := Next(Next(refreshed, Begin(id', worker', Some(cutoff), stillAccess)),
                             Claim(id', claimAt', renewAt', token', None, Committed));
              id' in w'.calls && w'.calls[id'].phase == Done(Success, NoError) && w'.calls[id'].posts == 0
              && w'.issued == w.issued + [next]
  {
    UndisturbedRefreshStores(w, id, worker, None, None, claimAt, renewAt, persistAt, token, next, expiresAt);
    var posted := Run(w, [Begin(id, worker, None, None), Claim(id, claimAt, renewAt, token, None, Committed),
                          Post(id, Delivered(next, Readable(expiresAt)))]);
    var refreshed := Run(posted, [Persist(id, persistAt, None, Committed)]);
    hide Run, Next, Inv;
    if id' !in refreshed.calls {
      RequestsIffNothingNewer(refreshed, id', worker', Some(cutoff), stillAccess, claimAt', renewAt', token');
    }
  }
}
