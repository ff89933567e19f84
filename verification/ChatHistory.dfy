/** The paginated chat-history scan: FOUND, ABSENT or UNCERTAIN, and what each answer proves. */
module ChatHistory {
  import opened Wrappers

  const HISTORY_PAGE_LIMIT: int := 50
  const HISTORY_MAX_PAGES: nat := 20

  /** An element of the decoded `messages` list; a key that is absent or not a string is None. */
  datatype Item = NotObject | NoMessage | Message(clientId: Option<string>, id: Option<string>)

  /** `Unreadable`: not JSON, not an object, or without a `messages` list. */
  datatype Body = Unreadable | Messages(items: seq<Item>)

  datatype Response = NoResponse | Response(status: int, body: Body)

  /** The transport's answer to request number `k` for `limit` entries from `offset`. */
  type Server = (nat, nat, nat) -> Response

  datatype ErrorCode = Transport | Http(status: int) | Parse | Truncated
  datatype PageHit = TransientPage(code: ErrorCode) | PermanentPage(code: ErrorCode) | PageRead(id: Option<string>, size: nat)
  datatype Scan = Found(id: string) | Absent | Uncertain(code: ErrorCode)
  datatype ScanError = HistoryLimit

  predicate Usable(item: Item, msgid: string) {
    item.Message? && item.clientId == Some(msgid) && item.id.Some? && item.id.value != ""
  }

  predicate NoneUsable(items: seq<Item>, msgid: string) {
    forall i :: 0 <= i < |items| ==> !Usable(items[i], msgid)
  }

  /** The id of the first usable match. */
  function FirstUsable(items: seq<Item>, msgid: string): (r: Option<string>)
    ensures r.None? <==> NoneUsable(items, msgid)
  {
    if items == [] then None
    else if Usable(items[0], msgid) then items[0].id
    else
      var rest := FirstUsable(items[1..], msgid);
      assert forall i :: 1 <= i < |items| ==> items[i] == items[1..][i - 1];
      rest
  }

  lemma {:induction false} FirstUsableIsFirst(items: seq<Item>, msgid: string)
    requires FirstUsable(items, msgid).Some?
    ensures exists i :: && 0 <= i < |items| && Usable(items[i], msgid) && items[i].id == FirstUsable(items, msgid)
                        && NoneUsable(items[..i], msgid)
  {
    if Usable(items[0], msgid) {
      assert items[..0] == [];
    } else {
      FirstUsableIsFirst(items[1..], msgid);
      var i :| && 0 <= i < |items[1..]| && Usable(items[1..][i], msgid)
               && items[1..][i].id == FirstUsable(items[1..], msgid) && NoneUsable(items[1..][..i], msgid);
      assert items[i + 1] == items[1..][i] && items[..i + 1] == [items[0]] + items[1..][..i];
    }
  }

  method ParseHistoryPage(body: Body, msgid: string) returns (r: Option<PageHit>)
    ensures r == if body.Unreadable? then None else Some(PageRead(FirstUsable(body.items, msgid), |body.items|))
  {
    if body.Unreadable? { return None; }
    for i := 0 to |body.items|
      invariant FirstUsable(body.items[i..], msgid) == FirstUsable(body.items, msgid)
    {
      assert body.items[i..][1..] == body.items[i + 1..];
      if Usable(body.items[i], msgid) {
        return Some(PageRead(body.items[i].id, |body.items|));
      }
    }
    return Some(PageRead(None, |body.items|));
  }

  predicate IsPermanent(status: int) {
    status in {400, 401, 403}
  }

  function PageOf(response: Response, msgid: string): PageHit {
    match response
    case NoResponse => TransientPage(Transport)
    case Response(status, body) =>
      if status == 204 then PageRead(None, 0)
      else if IsPermanent(status) then PermanentPage(Http(status))
      else if !(200 <= status < 300) then TransientPage(Http(status))
      else if body.Unreadable? then TransientPage(Parse)
      else PageRead(FirstUsable(body.items, msgid), |body.items|)
  }

  method HistoryPage(serve: Server, k: nat, msgid: string, limit: nat, offset: nat) returns (hit: PageHit)
    ensures hit == PageOf(serve(k, limit, offset), msgid)
  {
    var response := serve(k, limit, offset);
    if response.NoResponse? { return TransientPage(Transport); }
    if response.status == 204 { return PageRead(None, 0); }
    if IsPermanent(response.status) { return PermanentPage(Http(response.status)); }
    if !(200 <= response.status < 300) { return TransientPage(Http(response.status)); }
    var parsed := ParseHistoryPage(response.body, msgid);
    hit := if parsed.None? then TransientPage(Parse) else parsed.value;
  }

  /** The scan from page `k` on. */
  function ScanFrom(serve: Server, msgid: string, limit: nat, k: nat, offset: nat): Scan
    decreases HISTORY_MAX_PAGES - k
  {
    if k >= HISTORY_MAX_PAGES then Uncertain(Truncated) else
    match PageOf(serve(k, limit, offset), msgid)
    case TransientPage(code) => Uncertain(code)
    case PermanentPage(code) => Uncertain(code)
    case PageRead(Some(id), _) => Found(id)
    case PageRead(None, size) => if size < limit then Absent else ScanFrom(serve, msgid, limit, k + 1, offset + limit)
  }

  method ScanMsgidInHistory(serve: Server, msgid: string, pageLimit: int) returns (r: Result<Scan, ScanError>)
    ensures r.Err? <==> !(1 <= pageLimit <= HISTORY_PAGE_LIMIT)
    ensures r.Ok? ==> r.value == ScanFrom(serve, msgid, pageLimit, 0, 0)
  {
    if pageLimit < 1 || pageLimit > HISTORY_PAGE_LIMIT { return Err(HistoryLimit); }
    var offset: nat := 0;
    for k := 0 to HISTORY_MAX_PAGES
      invariant ScanFrom(serve, msgid, pageLimit, k, offset) == ScanFrom(serve, msgid, pageLimit, 0, 0)
    {
      var page := HistoryPage(serve, k, msgid, pageLimit, offset);
      if page.TransientPage? || page.PermanentPage? { return Ok(Uncertain(page.code)); }
      if page.id.Some? { return Ok(Found(page.id.value)); }
      if page.size < pageLimit { return Ok(Absent); }
      offset := offset + pageLimit;
    }
    return Ok(Uncertain(Truncated));
  }

  datatype Hit = Hit(found: bool, id: Option<string>, absenceProven: bool, code: Option<ErrorCode>)

  /** The older interface keeps the three answers apart: only ABSENT claims a proven absence. */
  function FindMsgidInHistory(serve: Server, msgid: string, pageLimit: nat): (hit: Hit)
    requires 1 <= pageLimit <= HISTORY_PAGE_LIMIT
    ensures hit.absenceProven <==> ScanFrom(serve, msgid, pageLimit, 0, 0) == Absent
    ensures hit.found <==> ScanFrom(serve, msgid, pageLimit, 0, 0).Found?
    ensures hit.found ==> hit.id == Some(ScanFrom(serve, msgid, pageLimit, 0, 0).id)
    ensures hit.code.Some? <==> !hit.found && !hit.absenceProven
  {
    match ScanFrom(serve, msgid, pageLimit, 0, 0)
    case Found(id) => Hit(true, Some(id), false, None)
    case Absent => Hit(false, None, true, None)
    case Uncertain(code) => Hit(false, None, false, Some(code))
  }

  // --- any server ------------------------------------------------------------------------------

  /** A 2xx answer that carries a list of messages. */
  predicate Listed(response: Response) {
    response.Response? && 200 <= response.status < 300 && response.status != 204 && response.body.Messages?
  }

  predicate FullWithoutMatch(response: Response, msgid: string, limit: nat) {
    Listed(response) && |response.body.items| >= limit && NoneUsable(response.body.items, msgid)
  }

  /** A 204, or a list shorter than asked for. */
  predicate ShortWithoutMatch(response: Response, msgid: string, limit: nat) {
    || (response.Response? && response.status == 204)
    || (Listed(response) && |response.body.items| < limit && NoneUsable(response.body.items, msgid))
  }

  /** `id` is that of the first usable item. */
  predicate ShowsMatch(response: Response, msgid: string, id: string) {
    && Listed(response)
    && exists i :: && 0 <= i < |response.body.items| && Usable(response.body.items[i], msgid)
                   && response.body.items[i].id == Some(id) && NoneUsable(response.body.items[..i], msgid)
  }

  predicate FailsWith(response: Response, code: ErrorCode) {
    match response
    case NoResponse => code == Transport
    case Response(status, body) =>
      if 200 <= status < 300 then status != 204 && body.Unreadable? && code == Parse else code == Http(status)
  }

  lemma {:induction false} ShownMatchIsFirst(items: seq<Item>, msgid: string, i: nat)
    requires i < |items| && Usable(items[i], msgid) && NoneUsable(items[..i], msgid)
    ensures FirstUsable(items, msgid) == items[i].id
  {
    if i > 0 {
      assert items[..i][0] == items[0];
      assert items[1..][..i - 1] == items[..i][1..];
      ShownMatchIsFirst(items[1..], msgid, i - 1);
    }
  }

  /** How each response is read, by its fields. */
  lemma PageByFields(response: Response, msgid: string, limit: nat)
    requires 1 <= limit
    ensures var page := PageOf(response, msgid);
            && (FullWithoutMatch(response, msgid, limit) <==> page.PageRead? && page.id.None? && page.size >= limit)
            && (ShortWithoutMatch(response, msgid, limit) <==> page.PageRead? && page.id.None? && page.size < limit)
            && (forall id :: ShowsMatch(response, msgid, id) <==> page.PageRead? && page.id == Some(id))
            && (forall code :: FailsWith(response, code) <==> !page.PageRead? && page.code == code)
  {
    forall id ensures ShowsMatch(response, msgid, id)
                      <==> PageOf(response, msgid).PageRead? && PageOf(response, msgid).id == Some(id)
    {
      if ShowsMatch(response, msgid, id) {
        var i :| && 0 <= i < |response.body.items| && Usable(response.body.items[i], msgid)
                 && response.body.items[i].id == Some(id) && NoneUsable(response.body.items[..i], msgid);
        ShownMatchIsFirst(response.body.items, msgid, i);
      } else if Listed(response) && FirstUsable(response.body.items, msgid).Some? {
        FirstUsableIsFirst(response.body.items, msgid);
      }
    }
  }

  function Reply(serve: Server, limit: nat, k: nat): Response {
    serve(k, limit, k * limit)
  }

  predicate FullUpTo(serve: Server, msgid: string, limit: nat, k: nat) {
    forall j :: 0 <= j < k ==> FullWithoutMatch(Reply(serve, limit, j), msgid, limit)
  }

  lemma ScanPastFullPage(serve: Server, msgid: string, limit: nat, k: nat, offset: nat)
    requires 1 <= limit && k < HISTORY_MAX_PAGES && FullWithoutMatch(serve(k, limit, offset), msgid, limit)
    ensures ScanFrom(serve, msgid, limit, k, offset) == ScanFrom(serve, msgid, limit, k + 1, offset + limit)
  {
    PageByFields(serve(k, limit, offset), msgid, limit);
    hide PageOf, FullWithoutMatch, ShortWithoutMatch, ShowsMatch, FailsWith;
  }

  lemma {:induction false} SkipFullPages(serve: Server, msgid: string, limit: nat, k: nat)
    requires 1 <= limit && k <= HISTORY_MAX_PAGES && FullUpTo(serve, msgid, limit, k)
    ensures ScanFrom(serve, msgid, limit, 0, 0) == ScanFrom(serve, msgid, limit, k, k * limit)
  {
    hide ScanFrom, FullWithoutMatch;
    if k > 0 {
      SkipFullPages(serve, msgid, limit, k - 1);
      assert FullWithoutMatch(Reply(serve, limit, k - 1), msgid, limit);
      ScanPastFullPage(serve, msgid, limit, k - 1, (k - 1) * limit);
      assert (k - 1) * limit + limit == k * limit;
    }
  }

  /** The page the scan stops at: every page before it was read, full and without a match. */
  lemma {:induction false} StopsAt(serve: Server, msgid: string, limit: nat, k: nat) returns (stop: nat)
    requires k <= HISTORY_MAX_PAGES && FullUpTo(serve, msgid, limit, k)
    ensures stop <= HISTORY_MAX_PAGES && FullUpTo(serve, msgid, limit, stop)
    ensures stop < HISTORY_MAX_PAGES ==> !FullWithoutMatch(Reply(serve, limit, stop), msgid, limit)
    decreases HISTORY_MAX_PAGES - k
  {
    if k == HISTORY_MAX_PAGES || !FullWithoutMatch(Reply(serve, limit, k), msgid, limit) {
      stop := k;
    } else {
      stop := StopsAt(serve, msgid, limit, k + 1);
    }
  }

  /** What the scan answers at the page it stops at, for any server. */
  lemma ScanStops(serve: Server, msgid: string, limit: nat, k: nat)
    requires 1 <= limit && k < HISTORY_MAX_PAGES && FullUpTo(serve, msgid, limit, k)
    requires !FullWithoutMatch(Reply(serve, limit, k), msgid, limit)
    ensures var (scan, response) := (ScanFrom(serve, msgid, limit, 0, 0), Reply(serve, limit, k));
            && (scan == Absent <==> ShortWithoutMatch(response, msgid, limit))
            && (forall id :: scan == Found(id) <==> ShowsMatch(response, msgid, id))
            && (forall code :: scan == Uncertain(code) <==> FailsWith(response, code))
  {
    SkipFullPages(serve, msgid, limit, k);
    PageByFields(Reply(serve, limit, k), msgid, limit);
    hide PageOf, FullWithoutMatch, ShortWithoutMatch, ShowsMatch, FailsWith, FullUpTo;
  }

  lemma KindsApart(response: Response, msgid: string, limit: nat)
    requires 1 <= limit && FullWithoutMatch(response, msgid, limit)
    ensures !ShortWithoutMatch(response, msgid, limit)
    ensures forall id :: !ShowsMatch(response, msgid, id)
    ensures forall code :: !FailsWith(response, code)
  {
    PageByFields(response, msgid, limit);
  }

  /**
   * For any server at all, by what its responses carry: ABSENT is answered iff one of the first 20 is a 204 or a
   * 2xx list shorter than the limit without a usable item, and every one before it is a 2xx list of at least
   * `limit` items, none usable.
   */
  lemma AbsentIffShortPageReached(serve: Server, msgid: string, limit: nat)
    requires 1 <= limit
    ensures ScanFrom(serve, msgid, limit, 0, 0) == Absent
            <==> exists k :: 0 <= k < HISTORY_MAX_PAGES && FullUpTo(serve, msgid, limit, k)
                             && ShortWithoutMatch(Reply(serve, limit, k), msgid, limit)
  {
    var stop := AnswerAtStop(serve, msgid, limit);
    forall k | 0 <= k < HISTORY_MAX_PAGES && FullUpTo(serve, msgid, limit, k)
               && ShortWithoutMatch(Reply(serve, limit, k), msgid, limit)
      ensures k == stop
    {
      if k != stop { StopIsFirst(serve, msgid, limit, stop, k); }
    }
    hide *;
  }

  /** ... FOUND iff one of them lists a usable item, the first with this id, after such full pages ... */
  lemma FoundIffMatchReached(serve: Server, msgid: string, limit: nat, id: string)
    requires 1 <= limit
    ensures ScanFrom(serve, msgid, limit, 0, 0) == Found(id)
            <==> exists k :: 0 <= k < HISTORY_MAX_PAGES && FullUpTo(serve, msgid, limit, k)
                             && ShowsMatch(Reply(serve, limit, k), msgid, id)
  {
    var stop := AnswerAtStop(serve, msgid, limit);
    forall k | 0 <= k < HISTORY_MAX_PAGES && FullUpTo(serve, msgid, limit, k)
               && ShowsMatch(Reply(serve, limit, k), msgid, id)
      ensures k == stop
    {
      if k != stop { StopIsFirst(serve, msgid, limit, stop, k); }
    }
    hide *;
  }

  /**
   * ... and UNCERTAIN iff the first response that is no such full page is missing, not a 2xx, or unreadable, with
   * the code of that failure, or all 20 were full pages. So a failed page never leads to ABSENT.
   */
  lemma UncertainIffFailureReached(serve: Server, msgid: string, limit: nat, code: ErrorCode)
    requires 1 <= limit
    ensures ScanFrom(serve, msgid, limit, 0, 0) == Uncertain(code)
            <==> || (exists k :: 0 <= k < HISTORY_MAX_PAGES && FullUpTo(serve, msgid, limit, k)
                                 && FailsWith(Reply(serve, limit, k), code))
                 || (FullUpTo(serve, msgid, limit, HISTORY_MAX_PAGES) && code == Truncated)
  {
    var stop := AnswerAtStop(serve, msgid, limit);
    forall k | 0 <= k < HISTORY_MAX_PAGES && FullUpTo(serve, msgid, limit, k) && FailsWith(Reply(serve, limit, k), code)
      ensures k == stop
    {
      if k != stop { StopIsFirst(serve, msgid, limit, stop, k); }
    }
  }

  /** The page the scan stops at decides the answer; without one it is truncated. */
  lemma AnswerAtStop(serve: Server, msgid: string, limit: nat) returns (stop: nat)
    requires 1 <= limit
    ensures stop <= HISTORY_MAX_PAGES && FullUpTo(serve, msgid, limit, stop)
    ensures stop < HISTORY_MAX_PAGES ==> !FullWithoutMatch(Reply(serve, limit, stop), msgid, limit)
    ensures var scan := ScanFrom(serve, msgid, limit, 0, 0);
            if stop == HISTORY_MAX_PAGES then scan == Uncertain(Truncated)
            else
              var response := Reply(serve, limit, stop);
              && (scan == Absent <==> ShortWithoutMatch(response, msgid, limit))
              && (forall id :: scan == Found(id) <==> ShowsMatch(response, msgid, id))
              && (forall code :: scan == Uncertain(code) <==> FailsWith(response, code))
  {
    stop := StopsAt(serve, msgid, limit, 0);
    if stop < HISTORY_MAX_PAGES { ScanStops(serve, msgid, limit, stop); } else { SkipFullPages(serve, msgid, limit, stop); }
  }

  /** No other page than the one the scan stops at follows full pages only and is not one itself. */
  lemma StopIsFirst(serve: Server, msgid: string, limit: nat, stop: nat, k: nat)
    requires 1 <= limit && k < HISTORY_MAX_PAGES && FullUpTo(serve, msgid, limit, k)
    requires FullUpTo(serve, msgid, limit, stop)
    requires stop < HISTORY_MAX_PAGES ==> !FullWithoutMatch(Reply(serve, limit, stop), msgid, limit)
    requires stop <= HISTORY_MAX_PAGES && k != stop
    ensures FullWithoutMatch(Reply(serve, limit, k), msgid, limit)
    ensures !ShortWithoutMatch(Reply(serve, limit, k), msgid, limit)
    ensures forall id :: !ShowsMatch(Reply(serve, limit, k), msgid, id)
    ensures forall code :: !FailsWith(Reply(serve, limit, k), code)
  {
    KindsApart(Reply(serve, limit, k), msgid, limit);
  }

  // --- a server that pages through a log ---------------------------------------------------------

  function AtMost(n: nat, s: seq<Item>): nat {
    if n <= |s| then n else |s|
  }

  function Window(log: seq<Item>, from: nat, to: nat): seq<Item>
    requires from <= to
  {
    log[AtMost(from, log)..AtMost(to, log)]
  }

  /** The right answer for a log: a 2xx body with the asked-for entries, or a 204 when there are none. */
  predicate Serves(response: Response, log: seq<Item>, limit: nat, offset: nat) {
    var window := Window(log, offset, offset + limit);
    && response.Response? && 200 <= response.status < 300
    && (if response.status == 204 then window == [] else response.body == Messages(window))
  }

  lemma ServedPage(response: Response, log: seq<Item>, limit: nat, offset: nat, msgid: string)
    requires Serves(response, log, limit, offset)
    ensures var window := Window(log, offset, offset + limit);
            PageOf(response, msgid) == PageRead(FirstUsable(window, msgid), |window|)
  {
  }

  lemma {:induction false} FirstUsableAppend(a: seq<Item>, b: seq<Item>, msgid: string)
    ensures FirstUsable(a + b, msgid) == if FirstUsable(a, msgid).Some? then FirstUsable(a, msgid) else FirstUsable(b, msgid)
  {
    if a == [] {
      assert a + b == b;
    } else {
      assert (a + b)[1..] == a[1..] + b;
      FirstUsableAppend(a[1..], b, msgid);
    }
  }

  predicate ServesLog(serve: Server, log: seq<Item>, limit: nat) {
    forall k :: 0 <= k < HISTORY_MAX_PAGES ==> Serves(Reply(serve, limit, k), log, limit, k * limit)
  }

  /** One page read off the front of what the scan can still reach. */
  lemma NextWindow(log: seq<Item>, offset: nat, limit: nat, end: nat, msgid: string)
    requires offset <= |log| && offset + limit <= end
    ensures var (page, rest) := (Window(log, offset, offset + limit), Window(log, offset + limit, end));
            && (|page| < limit <==> |log| < offset + limit) && (|log| <= offset + limit ==> FirstUsable(rest, msgid) == None)
            && FirstUsable(Window(log, offset, end), msgid)
               == if FirstUsable(page, msgid).Some? then FirstUsable(page, msgid) else FirstUsable(rest, msgid)
  {
    var (page, rest) := (Window(log, offset, offset + limit), Window(log, offset + limit, end));
    assert Window(log, offset, end) == page + rest;
    FirstUsableAppend(page, rest, msgid);
  }

  lemma ScanServedPage(serve: Server, msgid: string, limit: nat, log: seq<Item>, k: nat, offset: nat)
    requires ServesLog(serve, log, limit) && k < HISTORY_MAX_PAGES && offset == k * limit
    ensures var page := Window(log, offset, offset + limit);
            ScanFrom(serve, msgid, limit, k, offset) ==
            if FirstUsable(page, msgid).Some? then Found(FirstUsable(page, msgid).value)
            else if |page| < limit then Absent else ScanFrom(serve, msgid, limit, k + 1, offset + limit)
  {
    assert Reply(serve, limit, k) == serve(k, limit, offset);
    ServedPage(serve(k, limit, offset), log, limit, offset, msgid);
  }

  lemma {:induction false} FixedLogFrom(
    serve: Server, msgid: string, limit: nat, log: seq<Item>, k: nat, offset: nat, end: nat)
    requires 1 <= limit && ServesLog(serve, log, limit) && k <= HISTORY_MAX_PAGES
    requires offset == k * limit <= |log| && offset <= end == HISTORY_MAX_PAGES * limit
    ensures var hit := FirstUsable(Window(log, offset, end), msgid);
            ScanFrom(serve, msgid, limit, k, offset) ==
            if hit.Some? then Found(hit.value) else if |log| < end then Absent else Uncertain(Truncated)
    decreases HISTORY_MAX_PAGES - k
  {
    hide *;
    if k < HISTORY_MAX_PAGES {
      PagesLeft(k, limit);
      ScanServedPage(serve, msgid, limit, log, k, offset);
      NextWindow(log, offset, limit, end, msgid);
      if offset + limit <= |log| {
        FixedLogFrom(serve, msgid, limit, log, k + 1, offset + limit, end);
      }
    } else {
      ScanExhausted(serve, msgid, limit, log, end);
    }
  }

  lemma ScanExhausted(serve: Server, msgid: string, limit: nat, log: seq<Item>, end: nat)
    requires end <= |log|
    ensures FirstUsable(Window(log, end, end), msgid) == None
    ensures ScanFrom(serve, msgid, limit, HISTORY_MAX_PAGES, end) == Uncertain(Truncated)
  {
  }

  lemma PagesLeft(k: nat, limit: nat)
    requires k < HISTORY_MAX_PAGES
    ensures k * limit + limit == (k + 1) * limit <= HISTORY_MAX_PAGES * limit
  {
    assert HISTORY_MAX_PAGES * limit == (k + 1) * limit + (HISTORY_MAX_PAGES - k - 1) * limit;
  }

  /** On a fixed log whose pages all arrive, the answer is decided by the first 20 * limit entries. */
  lemma FixedLogScan(serve: Server, msgid: string, limit: nat, log: seq<Item>)
    requires 1 <= limit && ServesLog(serve, log, limit)
    ensures var (scan, reach) := (ScanFrom(serve, msgid, limit, 0, 0), HISTORY_MAX_PAGES * limit);
            var hit := FirstUsable(Window(log, 0, reach), msgid);
            && (scan.Found? <==> hit.Some?) && (scan.Found? ==> Some(scan.id) == hit)
            && (scan == Absent <==> NoneUsable(log, msgid) && |log| < reach)
            && (scan.Uncertain? <==> NoneUsable(Window(log, 0, reach), msgid) && |log| >= reach)
  {
    var reach := HISTORY_MAX_PAGES * limit;
    FixedLogFrom(serve, msgid, limit, log, 0, 0, reach);
    if |log| < reach { assert Window(log, 0, reach) == log; }
  }

  /** `now` is `was` with any number of entries put in front. */
  predicate GrownAtFront(was: seq<Item>, now: seq<Item>) {
    |was| <= |now| && now[|now| - |was|..] == was
  }

  ghost predicate ServesGrowingLog(serve: Server, logs: nat -> seq<Item>, limit: nat) {
    && (forall k: nat :: k < HISTORY_MAX_PAGES ==> Serves(Reply(serve, limit, k), logs(k), limit, k * limit))
    && (forall k: nat :: k + 1 < HISTORY_MAX_PAGES ==> GrownAtFront(logs(k), logs(k + 1)))
  }

  lemma {:induction false} GrowingLogFrom(serve: Server, msgid: string, limit: nat, logs: nat -> seq<Item>, k: nat)
    requires 1 <= limit && k < HISTORY_MAX_PAGES && ServesGrowingLog(serve, logs, limit)
    requires ScanFrom(serve, msgid, limit, k, k * limit) == Absent
    ensures NoneUsable(logs(k)[AtMost(k * limit, logs(k))..], msgid)
    decreases HISTORY_MAX_PAGES - k
  {
    var (offset, log) := (k * limit, logs(k));
    var page := Window(log, offset, offset + limit);
    ServedPage(Reply(serve, limit, k), log, limit, offset, msgid);
    if |page| < limit {
      assert page == log[AtMost(offset, log)..];
    } else {
      assert offset + limit == (k + 1) * limit;
      GrowingLogFrom(serve, msgid, limit, logs, k + 1);
      SuffixUnseen(log, logs(k + 1), offset, offset + limit, msgid);
    }
  }

  lemma SuffixUnseen(was: seq<Item>, now: seq<Item>, from: nat, to: nat, msgid: string)
    requires GrownAtFront(was, now) && from <= to <= |was|
    requires NoneUsable(was[from..to], msgid) && NoneUsable(now[AtMost(to, now)..], msgid)
    ensures NoneUsable(was[from..], msgid)
  {
    forall i | from <= i < |was| ensures !Usable(was[i], msgid) {
      if i < to {
        assert was[i] == was[from..to][i - from];
      } else {
        var j := i + |now| - |was|;
        assert was[i] == now[|now| - |was|..][i] == now[j] == now[to..][j - to];
      }
    }
  }

  /**
   * If the log only grows at its front between requests, offset paging leaves no gap: ABSENT means that no
   * entry of the log at the first request was a usable match.
   */
  lemma AbsentOnGrowingLog(serve: Server, msgid: string, limit: nat, logs: nat -> seq<Item>)
    requires 1 <= limit && ServesGrowingLog(serve, logs, limit)
    requires ScanFrom(serve, msgid, limit, 0, 0) == Absent
    ensures NoneUsable(logs(0), msgid)
  {
    GrowingLogFrom(serve, msgid, limit, logs, 0);
    assert logs(0)[0..] == logs(0);
  }

  function PageServer(logs: nat -> seq<Item>): Server {
    (k: nat, limit: nat, offset: nat) => Response(200, Messages(Window(logs(k), offset, offset + limit)))
  }

  /** The older interface on a fixed log: found iff the scan can reach a usable match, absence proven iff there is none. */
  lemma FindOnFixedLog(serve: Server, msgid: string, limit: nat, log: seq<Item>)
    requires 1 <= limit <= HISTORY_PAGE_LIMIT && ServesLog(serve, log, limit)
    ensures var (hit, reach) := (FindMsgidInHistory(serve, msgid, limit), HISTORY_MAX_PAGES * limit);
            && (hit.found <==> !NoneUsable(Window(log, 0, reach), msgid))
            && (hit.found ==> hit.id == FirstUsable(Window(log, 0, reach), msgid))
            && (hit.absenceProven <==> NoneUsable(log, msgid) && |log| < reach)
  {
    FixedLogScan(serve, msgid, limit, log);
  }

  /** ... and on a growing one: a proven absence is true of the log at the first request. */
  lemma FindOnGrowingLog(serve: Server, msgid: string, limit: nat, logs: nat -> seq<Item>)
    requires 1 <= limit <= HISTORY_PAGE_LIMIT && ServesGrowingLog(serve, logs, limit)
    ensures FindMsgidInHistory(serve, msgid, limit).absenceProven ==> NoneUsable(logs(0), msgid)
  {
    if FindMsgidInHistory(serve, msgid, limit).absenceProven {
      AbsentOnGrowingLog(serve, msgid, limit, logs);
    }
  }

  predicate Names(item: Item, msgid: string) {
    item.Message? && item.clientId == Some(msgid)
  }

  predicate HasUsableId(item: Item) {
    item.Message? && item.id.Some? && item.id.value != ""
  }

  /**
   * What "absent" leaves out: on a fixed log ABSENT is answered although an entry names the message iff the log
   * fits the scan, an entry names it, and each entry that does has no usable id.
   */
  lemma AbsentDespiteEntry(serve: Server, msgid: string, limit: nat, log: seq<Item>)
    requires 1 <= limit && ServesLog(serve, log, limit)
    ensures (ScanFrom(serve, msgid, limit, 0, 0) == Absent && exists i :: 0 <= i < |log| && Names(log[i], msgid))
            <==> && |log| < HISTORY_MAX_PAGES * limit && (exists i :: 0 <= i < |log| && Names(log[i], msgid))
                 && forall i :: 0 <= i < |log| && Names(log[i], msgid) ==> !HasUsableId(log[i])
  {
    FixedLogScan(serve, msgid, limit, log);
    forall i | 0 <= i < |log|
      ensures Usable(log[i], msgid) <==> Names(log[i], msgid) && HasUsableId(log[i])
    {
    }
  }
}
