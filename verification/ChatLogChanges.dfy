/**
 * The chat scan on a log that changes at its front between requests: exactly when ABSENT can hide an entry.
 *
 * Entries arrive and disappear only at the front, so an entry keeps its distance from the end of the log as long as
 * it stands. Sizes alone then decide what the pages can have missed.
 */
module ChatLogChanges {
  import opened ChatHistory
  import opened Wrappers

  /** The log at request `k`, and its size. */
  type History = nat -> seq<Item>
  type Sizes = nat -> nat

  /** Entries were added or removed at the front: one log is the end of the other. */
  predicate FrontChanged(was: seq<Item>, now: seq<Item>) {
    GrownAtFront(was, now) || GrownAtFront(now, was)
  }

  /** The scan stops at request `stop`: full pages before it, a short page there. */
  predicate StopsAtPage(sizes: Sizes, limit: nat, stop: nat) {
    && 1 <= limit && stop < HISTORY_MAX_PAGES
    && (forall k: nat :: k < stop ==> (k + 1) * limit <= sizes(k))
    && sizes(stop) < (stop + 1) * limit
  }

  ghost predicate FrontHistory(logs: History, sizes: Sizes, stop: nat) {
    && (forall k: nat :: k <= stop ==> |logs(k)| == sizes(k))
    && (forall k: nat :: k < stop ==> FrontChanged(logs(k), logs(k + 1)))
  }

  ghost predicate ServesHistory(serve: Server, logs: History, limit: nat, stop: nat) {
    forall k: nat :: k <= stop ==> Serves(Reply(serve, limit, k), logs(k), limit, k * limit)
  }

  // --- one transition ------------------------------------------------------------------------------

  /** Entry `i` of the log after page `k` is unread, and where it now stands lies before the next offset. */
  predicate Skipped(was: nat, now: nat, limit: nat, k: nat, i: int) {
    (k + 1) * limit <= i < was && i - (was - now) < (k + 1) * limit
  }

  /** A reached page leaves entries behind its end, and the log is shorter at the next request. */
  predicate ShrinksUnread(was: nat, now: nat, limit: nat, k: nat) {
    now < was && was > (k + 1) * limit
  }

  /** Between two requests an unread entry is skipped iff the log shrinks while unread entries remain. */
  lemma SkipsIffShrinksUnread(was: nat, now: nat, limit: nat, k: nat)
    ensures (exists i :: Skipped(was, now, limit, k, i)) <==> ShrinksUnread(was, now, limit, k)
  {
    if ShrinksUnread(was, now, limit, k) { assert Skipped(was, now, limit, k, (k + 1) * limit); }
  }

  // --- a whole scan --------------------------------------------------------------------------------

  /** The entry at distance `e` from the end of the first log is still the same one at request `k`. */
  predicate Stands(sizes: Sizes, e: nat, k: nat) {
    forall j: nat :: j <= k ==> e <= sizes(j)
  }

  /** Page `k` shows what stands at distance `e` from the end. */
  predicate OnPage(sizes: Sizes, limit: nat, e: nat, k: nat) {
    k * limit <= sizes(k) - e < (k + 1) * limit
  }

  /** The entry of the first log at distance `e` is on no page while it stands. */
  predicate Unread(sizes: Sizes, limit: nat, stop: nat, e: nat) {
    1 <= e <= sizes(0) && forall k: nat :: k <= stop && Stands(sizes, e, k) ==> !OnPage(sizes, limit, e, k)
  }

  lemma {:induction false} StandingEntryStays(logs: History, sizes: Sizes, stop: nat, e: nat, k: nat)
    requires FrontHistory(logs, sizes, stop) && k <= stop && 1 <= e && Stands(sizes, e, k)
    ensures logs(k)[sizes(k) - e] == logs(0)[sizes(0) - e]
  {
    if k > 0 {
      StandingEntryStays(logs, sizes, stop, e, k - 1);
      var (was, now) := (logs(k - 1), logs(k));
      assert FrontChanged(was, now) && e <= sizes(k - 1) && e <= sizes(k);
      if GrownAtFront(was, now) {
        assert now[|now| - |was|..][|was| - e] == now[|now| - e];
      } else {
        assert was[|was| - |now|..][|now| - e] == was[|was| - e];
      }
    }
  }

  /** What ABSENT read: no page up to the one it stopped at shows a match. */
  lemma AbsentReadNoMatch(serve: Server, msgid: string, limit: nat, logs: History, sizes: Sizes, stop: nat, k: nat)
    requires StopsAtPage(sizes, limit, stop) && FrontHistory(logs, sizes, stop) && ServesHistory(serve, logs, limit, stop)
    requires ScanFrom(serve, msgid, limit, 0, 0) == Absent && k <= stop
    ensures NoneUsable(Window(logs(k), k * limit, k * limit + limit), msgid)
  {
    AbsentIffShortPageReached(serve, msgid, limit);
    var end :| && 0 <= end < HISTORY_MAX_PAGES && FullUpTo(serve, msgid, limit, end)
               && ShortWithoutMatch(Reply(serve, limit, end), msgid, limit);
    if end < stop {
      PageSize(serve, msgid, limit, logs, sizes, stop, end);
      assert false;
    }
    PageSize(serve, msgid, limit, logs, sizes, stop, k);
    assert k < end ==> FullWithoutMatch(Reply(serve, limit, k), msgid, limit);
  }

  /** A served page is full iff the log reaches the end of its window. */
  lemma PageSize(serve: Server, msgid: string, limit: nat, logs: History, sizes: Sizes, stop: nat, k: nat)
    requires FrontHistory(logs, sizes, stop) && ServesHistory(serve, logs, limit, stop) && k <= stop
    ensures var window := Window(logs(k), k * limit, k * limit + limit);
            && PageOf(Reply(serve, limit, k), msgid) == PageRead(FirstUsable(window, msgid), |window|)
            && (|window| >= limit <==> (k + 1) * limit <= sizes(k) || limit == 0)
  {
    ServedPage(Reply(serve, limit, k), logs(k), limit, k * limit, msgid);
    assert k * limit + limit == (k + 1) * limit;
  }

  /** On any front-changing history, a match of the first log that ABSENT missed was on no page while it stood. */
  lemma AbsentMissesOnlyUnread(
    serve: Server, msgid: string, limit: nat, logs: History, sizes: Sizes, stop: nat, i: nat)
    requires StopsAtPage(sizes, limit, stop) && FrontHistory(logs, sizes, stop) && ServesHistory(serve, logs, limit, stop)
    requires ScanFrom(serve, msgid, limit, 0, 0) == Absent && i < |logs(0)| && Usable(logs(0)[i], msgid)
    ensures Unread(sizes, limit, stop, sizes(0) - i)
  {
    var e := sizes(0) - i;
    forall k: nat | k <= stop && Stands(sizes, e, k) ensures !OnPage(sizes, limit, e, k) {
      StandingEntryStays(logs, sizes, stop, e, k);
      AbsentReadNoMatch(serve, msgid, limit, logs, sizes, stop, k);
      assert (k + 1) * limit == k * limit + limit;
      InWindow(logs(k), k * limit, limit, sizes(k) - e, msgid);
    }
  }

  lemma InWindow(log: seq<Item>, from: nat, limit: nat, i: nat, msgid: string)
    requires NoneUsable(Window(log, from, from + limit), msgid) && i < |log|
    ensures from <= i < from + limit ==> !Usable(log[i], msgid)
  {
    if from <= i < from + limit { assert Window(log, from, from + limit)[i - from] == log[i]; }
  }

  // --- every unread distance can hide a match -----------------------------------------------------------

  /** A log of `size` entries of which only the one at distance `e` matches, if it still stands. */
  function OneMatch(size: nat, e: nat, stands: bool, msgid: string): (log: seq<Item>)
    requires stands ==> 1 <= e <= size
    ensures |log| == size
    ensures forall i :: 0 <= i < size ==> (Usable(log[i], msgid) <==> stands && i == size - e)
  {
    seq(size, i => if stands && i == size - e then Message(Some(msgid), Some("id")) else NoMessage)
  }

  ghost function HidingHistory(sizes: Sizes, e: nat, msgid: string): History
    requires 1 <= e
  {
    (k: nat) => OneMatch(sizes(k), e, Stands(sizes, e, k), msgid)
  }

  lemma OneMatchChangesAtFront(was: nat, now: nat, e: nat, stood: bool, stands: bool, msgid: string)
    requires 1 <= e && (stood ==> e <= was) && (stands <==> stood && e <= now)
    ensures FrontChanged(OneMatch(was, e, stood, msgid), OneMatch(now, e, stands, msgid))
  {
    var (a, b) := (OneMatch(was, e, stood, msgid), OneMatch(now, e, stands, msgid));
    if was <= now {
      assert b[now - was..] == a;
    } else {
      assert a[was - now..] == b;
    }
  }

  lemma HidingHistoryIsFrontHistory(sizes: Sizes, e: nat, msgid: string, stop: nat)
    requires 1 <= e
    ensures FrontHistory(HidingHistory(sizes, e, msgid), sizes, stop)
  {
    var logs := HidingHistory(sizes, e, msgid);
    forall k: nat | k < stop ensures FrontChanged(logs(k), logs(k + 1)) {
      StandsNext(sizes, e, k);
      OneMatchChangesAtFront(sizes(k), sizes(k + 1), e, Stands(sizes, e, k), Stands(sizes, e, k + 1), msgid);
      hide *;
    }
    hide FrontChanged, OneMatch, Stands;
  }

  lemma StandsNext(sizes: Sizes, e: nat, k: nat)
    ensures Stands(sizes, e, k) ==> e <= sizes(k)
    ensures Stands(sizes, e, k + 1) <==> Stands(sizes, e, k) && e <= sizes(k + 1)
  {
  }

  lemma StopsExactly(sizes: Sizes, limit: nat, stop: nat, k: nat)
    requires StopsAtPage(sizes, limit, stop) && k <= stop
    ensures 1 <= limit && stop < HISTORY_MAX_PAGES && (k < stop <==> (k + 1) * limit <= sizes(k))
  {
  }

  lemma FullOrShort(response: Response, window: seq<Item>, msgid: string, limit: nat)
    requires 1 <= limit
    requires PageOf(response, msgid) == PageRead(FirstUsable(window, msgid), |window|) && NoneUsable(window, msgid)
    ensures if |window| >= limit then FullWithoutMatch(response, msgid, limit) else ShortWithoutMatch(response, msgid, limit)
  {
    PageByFields(response, msgid, limit);
  }

  lemma UnreadIsPositive(sizes: Sizes, limit: nat, stop: nat, e: nat)
    requires Unread(sizes, limit, stop, e)
    ensures 1 <= e <= sizes(0) && Stands(sizes, e, 0)
  {
  }

  /** The page of the hiding history that request `k` gets. */
  lemma HidingPage(sizes: Sizes, e: nat, msgid: string, limit: nat, stop: nat, k: nat)
    requires StopsAtPage(sizes, limit, stop) && Unread(sizes, limit, stop, e) && k <= stop && 1 <= e
    ensures var reply := Reply(PageServer(HidingHistory(sizes, e, msgid)), limit, k);
            if k < stop then FullWithoutMatch(reply, msgid, limit) else ShortWithoutMatch(reply, msgid, limit)
  {
    hide *;
    var logs := HidingHistory(sizes, e, msgid);
    HidingHistoryIsFrontHistory(sizes, e, msgid, stop);
    PageServerServes(logs, limit, stop);
    PageSize(PageServer(logs), msgid, limit, logs, sizes, stop, k);
    NoMatchOnPage(sizes, e, msgid, limit, stop, k, k * limit);
    StopsExactly(sizes, limit, stop, k);
    FullOrShort(Reply(PageServer(logs), limit, k), Window(logs(k), k * limit, k * limit + limit), msgid, limit);
  }

  lemma HidingHistoryMatches(sizes: Sizes, e: nat, msgid: string)
    requires 1 <= e <= sizes(0)
    ensures !NoneUsable(HidingHistory(sizes, e, msgid)(0), msgid)
  {
    assert Stands(sizes, e, 0) && Usable(HidingHistory(sizes, e, msgid)(0)[sizes(0) - e], msgid);
  }

  lemma HidingHistoryIsAbsent(sizes: Sizes, e: nat, msgid: string, limit: nat, stop: nat)
    requires StopsAtPage(sizes, limit, stop) && Unread(sizes, limit, stop, e) && 1 <= e
    ensures var logs := HidingHistory(sizes, e, msgid);
            ScanFrom(PageServer(logs), msgid, limit, 0, 0) == Absent && !NoneUsable(logs(0), msgid)
  {
    hide *;
    var logs := HidingHistory(sizes, e, msgid);
    UnreadIsPositive(sizes, limit, stop, e);
    HidingHistoryMatches(sizes, e, msgid);
    StopsExactly(sizes, limit, stop, stop);
    forall k: nat | k <= stop { HidingPage(sizes, e, msgid, limit, stop, k); }
    AbsentAfterFullPages(PageServer(logs), msgid, limit, stop);
  }

  lemma AbsentAfterFullPages(serve: Server, msgid: string, limit: nat, stop: nat)
    requires 1 <= limit && stop < HISTORY_MAX_PAGES && ShortWithoutMatch(Reply(serve, limit, stop), msgid, limit)
    requires forall k: nat :: k < stop ==> FullWithoutMatch(Reply(serve, limit, k), msgid, limit)
    ensures ScanFrom(serve, msgid, limit, 0, 0) == Absent
  {
    hide Reply, FullWithoutMatch, ShortWithoutMatch, ScanFrom;
    assert FullUpTo(serve, msgid, limit, stop);
    AbsentIffShortPageReached(serve, msgid, limit);
  }

  lemma PageServerServes(logs: History, limit: nat, stop: nat)
    ensures ServesHistory(PageServer(logs), logs, limit, stop)
  {
  }

  lemma OneMatchOffWindow(size: nat, e: nat, stands: bool, msgid: string, from: nat, limit: nat)
    requires 1 <= e && (stands ==> e <= size && !(from <= size - e < from + limit))
    ensures NoneUsable(Window(OneMatch(size, e, stands, msgid), from, from + limit), msgid)
  {
    var log := OneMatch(size, e, stands, msgid);
    var window := Window(log, from, from + limit);
    hide OneMatch, Usable;
    forall i | 0 <= i < |window| ensures !Usable(window[i], msgid) {
      assert window[i] == log[from + i];
    }
  }

  lemma NoMatchOnPage(sizes: Sizes, e: nat, msgid: string, limit: nat, stop: nat, k: nat, offset: nat)
    requires 1 <= e && k <= stop && Unread(sizes, limit, stop, e) && offset == k * limit
    ensures NoneUsable(Window(HidingHistory(sizes, e, msgid)(k), offset, offset + limit), msgid)
  {
    assert offset + limit == (k + 1) * limit;
    assert Stands(sizes, e, k) ==> e <= sizes(k) && !OnPage(sizes, limit, e, k);
    hide Stands, Unread, OneMatch, NoneUsable, Window;
    OneMatchOffWindow(sizes(k), e, Stands(sizes, e, k), msgid, offset, limit);
  }

  /** Some front-changing history of these sizes answers ABSENT although the first log had a usable match. */
  ghost predicate CanHide(sizes: Sizes, limit: nat, stop: nat, msgid: string) {
    exists logs: History ::
      && FrontHistory(logs, sizes, stop) && !NoneUsable(logs(0), msgid)
      && ScanFrom(PageServer(logs), msgid, limit, 0, 0) == Absent
  }

  /** Exactly, for every front-changing log: ABSENT can hide a match iff some entry is on no page while it stands. */
  lemma CanHideIffUnread(sizes: Sizes, limit: nat, stop: nat, msgid: string)
    requires StopsAtPage(sizes, limit, stop)
    ensures CanHide(sizes, limit, stop, msgid) <==> exists e :: Unread(sizes, limit, stop, e)
  {
    if CanHide(sizes, limit, stop, msgid) {
      var logs: History :| && FrontHistory(logs, sizes, stop) && !NoneUsable(logs(0), msgid)
                           && ScanFrom(PageServer(logs), msgid, limit, 0, 0) == Absent;
      var i :| 0 <= i < |logs(0)| && Usable(logs(0)[i], msgid);
      PageServerServes(logs, limit, stop);
      AbsentMissesOnlyUnread(PageServer(logs), msgid, limit, logs, sizes, stop, i);
    }
    if exists e :: Unread(sizes, limit, stop, e) {
      var e :| Unread(sizes, limit, stop, e);
      UnreadIsPositive(sizes, limit, stop, e);
      HidingHistoryIsFrontHistory(sizes, e, msgid, stop);
      HidingHistoryIsAbsent(sizes, e, msgid, limit, stop);
    }
  }

  // --- the condition on one transition ---------------------------------------------------------------------

  /** Some reached request leaves entries unread and the log is shorter at the next one. */
  predicate SomeTransitionShrinksUnread(sizes: Sizes, limit: nat, stop: nat) {
    exists k: nat :: k < stop && ShrinksUnread(sizes(k), sizes(k + 1), limit, k)
  }

  lemma {:induction false} UnreadWasSkipped(sizes: Sizes, limit: nat, stop: nat, e: nat, k: nat)
    requires StopsAtPage(sizes, limit, stop) && Unread(sizes, limit, stop, e)
    requires k <= stop && Stands(sizes, e, k) && k * limit <= sizes(k) - e
    ensures SomeTransitionShrinksUnread(sizes, limit, stop)
    decreases stop - k
  {
    assert !OnPage(sizes, limit, e, k);
    assert k < stop && sizes(k) - e >= (k + 1) * limit;
    if sizes(k + 1) < sizes(k) {
      assert ShrinksUnread(sizes(k), sizes(k + 1), limit, k);
    } else {
      assert Stands(sizes, e, k + 1);
      UnreadWasSkipped(sizes, limit, stop, e, k + 1);
    }
  }

  /** Without such a transition ABSENT is right about the first log, however the log changes at its front. */
  lemma AbsentWithoutSuchTransition(serve: Server, msgid: string, limit: nat, logs: History, sizes: Sizes, stop: nat)
    requires StopsAtPage(sizes, limit, stop) && FrontHistory(logs, sizes, stop) && ServesHistory(serve, logs, limit, stop)
    requires ScanFrom(serve, msgid, limit, 0, 0) == Absent && !SomeTransitionShrinksUnread(sizes, limit, stop)
    ensures NoneUsable(logs(0), msgid)
  {
    forall i | 0 <= i < |logs(0)| ensures !Usable(logs(0)[i], msgid) {
      if Usable(logs(0)[i], msgid) {
        AbsentMissesOnlyUnread(serve, msgid, limit, logs, sizes, stop, i);
        assert Stands(sizes, sizes(0) - i, 0);
        UnreadWasSkipped(sizes, limit, stop, sizes(0) - i, 0);
      }
    }
  }

  /** At most one page of entries arrives between two requests. */
  predicate ArrivesSlowly(sizes: Sizes, limit: nat, stop: nat) {
    forall k: nat :: k < stop ==> sizes(k + 1) <= sizes(k) + limit
  }

  /** Then what lies beyond the offset never grows. */
  lemma {:induction false} BeyondOffsetShrinks(sizes: Sizes, limit: nat, stop: nat, i: nat, j: nat)
    requires ArrivesSlowly(sizes, limit, stop) && i <= j <= stop
    ensures sizes(j) - j * limit <= sizes(i) - i * limit
  {
    if i < j {
      BeyondOffsetShrinks(sizes, limit, stop, i, j - 1);
      assert j * limit == (j - 1) * limit + limit && sizes(j - 1 + 1) <= sizes(j - 1) + limit;
    }
  }

  /** The first entry left unread at such a transition is never shown again. */
  lemma FirstUnreadIsSkipped(sizes: Sizes, limit: nat, stop: nat, k: nat)
    requires StopsAtPage(sizes, limit, stop) && ArrivesSlowly(sizes, limit, stop)
    requires k < stop && ShrinksUnread(sizes(k), sizes(k + 1), limit, k)
    ensures Unread(sizes, limit, stop, sizes(k) - (k + 1) * limit)
  {
    var e: nat := sizes(k) - (k + 1) * limit;
    assert (k + 1) * limit == k * limit + limit;
    BeyondOffsetShrinks(sizes, limit, stop, 0, k);
    forall j: nat | j <= stop ensures !OnPage(sizes, limit, e, j) {
      assert (j + 1) * limit == j * limit + limit;
      if j <= k {
        BeyondOffsetShrinks(sizes, limit, stop, j, k);
      } else {
        BeyondOffsetShrinks(sizes, limit, stop, k + 1, j);
      }
    }
  }

  /**
   * While at most a page arrives between two requests, ABSENT can hide a match iff some reached transition shrinks
   * the log while unread entries remain.
   */
  lemma CanHideIffShrinksUnread(sizes: Sizes, limit: nat, stop: nat, msgid: string)
    requires StopsAtPage(sizes, limit, stop) && ArrivesSlowly(sizes, limit, stop)
    ensures CanHide(sizes, limit, stop, msgid) <==> SomeTransitionShrinksUnread(sizes, limit, stop)
  {
    CanHideIffUnread(sizes, limit, stop, msgid);
    if exists e :: Unread(sizes, limit, stop, e) {
      var e :| Unread(sizes, limit, stop, e);
      assert Stands(sizes, e, 0);
      UnreadWasSkipped(sizes, limit, stop, e, 0);
    }
    if SomeTransitionShrinksUnread(sizes, limit, stop) {
      var k: nat :| k < stop && ShrinksUnread(sizes(k), sizes(k + 1), limit, k);
      FirstUnreadIsSkipped(sizes, limit, stop, k);
    }
  }

  // --- instances ---------------------------------------------------------------------------------------------

  function ShrinkingSizes(): Sizes {
    (k: nat) => if k == 0 then 2 else 1
  }

  /** The smallest such log: two entries, one of which is gone at the second request of one entry each. */
  lemma ShrinkingLogHidesAMatch(msgid: string)
    ensures CanHide(ShrinkingSizes(), 1, 1, msgid)
  {
    var sizes := ShrinkingSizes();
    assert ShrinksUnread(sizes(0), sizes(1), 1, 0);
    CanHideIffShrinksUnread(sizes, 1, 1, msgid);
  }

  function RegrowingSizes(): Sizes {
    (k: nat) => if k == 0 then 3 else if k == 1 then 2 else 5
  }

  /** The bound on arrivals is needed: after a larger growth the offset comes back before what it had skipped. */
  lemma RegrowthShowsSkippedEntries(msgid: string)
    ensures StopsAtPage(RegrowingSizes(), 1, 5) && SomeTransitionShrinksUnread(RegrowingSizes(), 1, 5)
    ensures !CanHide(RegrowingSizes(), 1, 5, msgid)
  {
    var sizes := RegrowingSizes();
    assert ShrinksUnread(sizes(0), sizes(1), 1, 0);
    forall e: nat ensures !Unread(sizes, 1, 5, e) {
      if e == 3 { assert Stands(sizes, e, 0) && OnPage(sizes, 1, e, 0); }
      else if e == 2 { assert Stands(sizes, e, 3) && OnPage(sizes, 1, e, 3); }
      else if e == 1 { assert Stands(sizes, e, 1) && OnPage(sizes, 1, e, 1); }
    }
    CanHideIffUnread(sizes, 1, 5, msgid);
  }
}
