/** The durable OAuth token row and the five fenced transactions on it. */
module OauthStore {
  import opened Wrappers

  const DEFAULT_REFRESH_LEASE_SECONDS: int := 30
  const PRE_HTTP_REFRESH_LEASE_SECONDS: int := 60

  datatype TokenPair = TokenPair(access: string, refresh: string)

  datatype OauthError =
    | NotFound
    | StaleLease
    | RotateSuperseded
    | StoreFailed
    | EncryptFailed
    | KeyUnavailable
    | AccessDenied
    | RotatePersistFailed

  /** One row per connection scope. A lease token is a fresh UUID, modelled as a number. */
  datatype Row = Row(
    pair: TokenPair, expiresAt: Option<int>,
    owner: Option<string>, token: Option<nat>, version: nat, until: Option<int>)

  datatype Lease = Lease(owner: string, token: nat, version: nat, until: int)

  predicate LeaseLive(row: Row, at: int) {
    row.until.Some? && row.until.value > at && row.owner.Some?
  }

  /** The fence of renew and rotate: token, version, owner and expiry must all still match. */
  predicate Fenced(row: Row, lease: Lease, at: int) {
    && row.token == Some(lease.token) && row.version == lease.version
    && row.owner == Some(lease.owner) && row.until.Some? && row.until.value > at
  }

  function Unleased(row: Row): Row {
    row.(owner := None, token := None, until := None)
  }

  function Claimed(row: Option<Row>, worker: string, at: int, token: nat, seconds: int)
    : Result<(Row, Lease), OauthError>
  {
    match row
    case None => Err(NotFound)
    case Some(r) =>
      if LeaseLive(r, at) then Err(StaleLease) else
      Ok((r.(owner := Some(worker), token := Some(token), version := r.version + 1, until := Some(at + seconds)),
          Lease(worker, token, r.version + 1, at + seconds)))
  }

  function Renewed(row: Option<Row>, lease: Lease, at: int, seconds: int): Result<(Row, Lease), OauthError> {
    if row.Some? && Fenced(row.value, lease, at)
    then Ok((row.value.(until := Some(at + seconds)), lease.(until := at + seconds)))
    else Err(StaleLease)
  }

  function Rotated(row: Option<Row>, lease: Lease, pair: TokenPair, expiresAt: Option<int>, at: int)
    : Result<Row, OauthError>
  {
    if row.Some? && Fenced(row.value, lease, at)
    then Ok(Unleased(row.value.(pair := pair, expiresAt := expiresAt)))
    else Err(StaleLease)
  }

  /** Release ignores owner and expiry: it clears whatever still carries this token and version. */
  function Released(row: Option<Row>, lease: Lease): Option<Row> {
    if row.Some? && row.value.token == Some(lease.token) && row.value.version == lease.version
    then Some(Unleased(row.value)) else row
  }

  /** What the guarded recovery must do, said without its claim/renew/rotate detour. */
  function Recovered(row: Option<Row>, worker: string, pre: TokenPair, pair: TokenPair, expiresAt: Option<int>, at: int)
    : Result<Row, OauthError>
  {
    match row
    case None => Err(NotFound)
    case Some(r) =>
      if r.pair != pre then Err(RotateSuperseded)
      else if LeaseLive(r, at) && r.owner != Some(worker) then Err(StaleLease)
      else Ok(Unleased(r.(pair := pair, expiresAt := expiresAt,
                          version := if LeaseLive(r, at) then r.version else r.version + 1)))
  }

  /** A row whose owner is set always carries a token: claims set both, everything else clears both. */
  predicate WellLeased(row: Option<Row>) {
    row.Some? && row.value.owner.Some? ==> row.value.token.Some?
  }

  // --- what the lease guarantees -------------------------------------------------------------------

  /** While a claimed lease has not expired nobody else can claim; from its expiry on anybody can. */
  lemma ClaimExcludesOthers(
    row: Option<Row>, worker: string, at: int, token: nat, seconds: int,
    other: string, later: int, token': nat, seconds': int)
    requires Claimed(row, worker, at, token, seconds).Ok?
    ensures var claimed := Claimed(row, worker, at, token, seconds).value.0;
            && claimed.pair == row.value.pair && claimed.expiresAt == row.value.expiresAt
            && claimed.version == row.value.version + 1
            && (Claimed(Some(claimed), other, later, token', seconds').Err? <==> later < at + seconds)
  {
  }

  /** A claimed lease can rotate exactly until it expires, and renewal moves that time without a new version. */
  lemma LeaseWorksUntilExpiry(
    row: Option<Row>, worker: string, at: int, token: nat, seconds: int, pair: TokenPair, expiresAt: Option<int>,
    renewAt: int, more: int, later: int)
    requires Claimed(row, worker, at, token, seconds).Ok? && renewAt < at + seconds
    ensures var (claimed, lease) := Claimed(row, worker, at, token, seconds).value;
            && (Rotated(Some(claimed), lease, pair, expiresAt, later).Ok? <==> later < at + seconds)
            && Renewed(Some(claimed), lease, renewAt, more).Ok?
            && var (renewed, lease') := Renewed(Some(claimed), lease, renewAt, more).value;
               && renewed.version == claimed.version && renewed.pair == claimed.pair
               && (Rotated(Some(renewed), lease', pair, expiresAt, later).Ok? <==> later < renewAt + more)
  {
  }

  /** Whoever claims next fences the earlier lease out: it can neither renew, rotate nor release. */
  lemma NextClaimFences(
    row: Row, lease: Lease, other: string, at: int, token: nat, seconds: int, later: int, more: int,
    pair: TokenPair, expiresAt: Option<int>)
    requires Claimed(Some(row), other, at, token, seconds).Ok? && token != lease.token
    ensures var next := Claimed(Some(row), other, at, token, seconds).value.0;
            && Renewed(Some(next), lease, later, more) == Err(StaleLease)
            && Rotated(Some(next), lease, pair, expiresAt, later) == Err(StaleLease)
            && Released(Some(next), lease) == Some(next)
  {
  }

  /** A rotation writes pair and expiry and uses its lease up: the row is free and the lease rotates nothing more. */
  lemma RotateConsumesLease(row: Option<Row>, lease: Lease, pair: TokenPair, expiresAt: Option<int>, at: int, later: int)
    requires Rotated(row, lease, pair, expiresAt, at).Ok?
    ensures var rotated := Rotated(row, lease, pair, expiresAt, at).value;
            && rotated.pair == pair && rotated.expiresAt == expiresAt && rotated.version == row.value.version
            && !LeaseLive(rotated, later) && Rotated(Some(rotated), lease, pair, expiresAt, later) == Err(StaleLease)
  {
  }

  /** A release frees the row iff the lease is the one it carries, and never touches what is stored. */
  lemma ReleaseFreesOwnLease(row: Row, lease: Lease, at: int)
    ensures var released := Released(Some(row), lease).value;
            && released.pair == row.pair && released.expiresAt == row.expiresAt && released.version == row.version
            && (if row.token == Some(lease.token) && row.version == lease.version
                then released.owner.None? && released.token.None? && !LeaseLive(released, at)
                else released == row)
  {
  }

  /** A recovery replaces the unchanged pair and frees the row, unless another worker's lease is live. */
  lemma RecoveryReplacesUnchangedPair(
    row: Row, worker: string, pre: TokenPair, pair: TokenPair, expiresAt: Option<int>, at: int, later: int)
    ensures var r := Recovered(Some(row), worker, pre, pair, expiresAt, at);
            && (r.Ok? <==> row.pair == pre && !(LeaseLive(row, at) && row.owner != Some(worker)))
            && (r == Err(RotateSuperseded) <==> row.pair != pre)
            && (r.Ok? ==> r.value.pair == pair && r.value.expiresAt == expiresAt && !LeaseLive(r.value, later)
                          && r.value.version == row.version + if LeaseLive(row, at) then 0 else 1)
  {
  }

  class TokenStore {
    var row: Option<Row>

    constructor (row: Option<Row>)
      ensures this.row == row
    {
      this.row := row;
    }

    method Claim(worker: string, at: int, token: nat, seconds: int) returns (r: Result<Lease, OauthError>)
      modifies this
      ensures match Claimed(old(row), worker, at, token, seconds)
              case Ok((newRow, lease)) => row == Some(newRow) && r == Ok(lease)
              case Err(e) => row == old(row) && r == Err(e)
    {
      if row.None? { return Err(NotFound); }
      if LeaseLive(row.value, at) { return Err(StaleLease); }
      var version := row.value.version + 1;
      row := Some(row.value.(owner := Some(worker), token := Some(token), version := version,
                             until := Some(at + seconds)));
      r := Ok(Lease(worker, token, version, at + seconds));
    }

    method Renew(lease: Lease, at: int, seconds: int) returns (r: Result<Lease, OauthError>)
      modifies this
      ensures match Renewed(old(row), lease, at, seconds)
              case Ok((newRow, renewed)) => row == Some(newRow) && r == Ok(renewed)
              case Err(e) => row == old(row) && r == Err(e)
    {
      if row.None? || !Fenced(row.value, lease, at) { return Err(StaleLease); }
      row := Some(row.value.(until := Some(at + seconds)));
      r := Ok(lease.(until := at + seconds));
    }

    method Rotate(lease: Lease, pair: TokenPair, expiresAt: Option<int>, at: int) returns (r: Result<(), OauthError>)
      modifies this
      ensures match Rotated(old(row), lease, pair, expiresAt, at)
              case Ok(newRow) => row == Some(newRow) && r == Ok(())
              case Err(e) => row == old(row) && r == Err(e)
    {
      if row.None? || !Fenced(row.value, lease, at) { return Err(StaleLease); }
      row := Some(row.value.(pair := pair, expiresAt := expiresAt, owner := None, token := None, until := None));
      r := Ok(());
    }

    method Release(lease: Lease)
      modifies this
      ensures row == Released(old(row), lease)
    {
      if row.Some? && row.value.token == Some(lease.token) && row.value.version == lease.version {
        row := Some(row.value.(owner := None, token := None, until := None));
      }
    }

    /** Adopts a live lease of the same worker, or claims a new one, and rotates under it. */
    method RecoverRotateIfPreRefreshUnchanged(
      worker: string, pre: TokenPair, pair: TokenPair, expiresAt: Option<int>, at: int, token: nat)
      returns (r: Result<(), OauthError>)
      requires WellLeased(row)
      modifies this
      ensures match Recovered(old(row), worker, pre, pair, expiresAt, at)
              case Ok(newRow) => row == Some(newRow) && r == Ok(())
              case Err(e) => row == old(row) && r == Err(e)
    {
      if row.None? { return Err(NotFound); }
      if row.value.pair.refresh != pre.refresh || row.value.pair.access != pre.access {
        return Err(RotateSuperseded);
      }
      var lease: Result<Lease, OauthError>;
      if LeaseLive(row.value, at) {
        if row.value.owner != Some(worker) { return Err(StaleLease); }
        var held := Lease(worker, row.value.token.value, row.value.version, row.value.until.value);
        lease := Renew(held, at, PRE_HTTP_REFRESH_LEASE_SECONDS);
      } else {
        lease := Claim(worker, at, token, PRE_HTTP_REFRESH_LEASE_SECONDS);
      }
      assert lease.Ok?;  // neither step can fail at one and the same instant
      r := Rotate(lease.value, pair, expiresAt, at);
    }
  }
}
