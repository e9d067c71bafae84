/** The sliding-window limiter: a deque per target in memory, or rows of one shared table, each against
    the full history of accepted events, and against the last 60 seconds of it whatever the clock does. */
module RateLimit {
  import opened Common

  const WINDOW := 60.0

  // ------------------------------------------------------------ specification

  /** Times of accepted events, oldest first. */
  type History = seq<real>

  /** How many events are stamped after `now - 60`, those stamped after `now` included, as the code counts. */
  function Newer(h: History, now: real): nat {
    if h == [] then 0 else Newer(h[..|h| - 1], now) + if h[|h| - 1] > now - WINDOW then 1 else 0
  }

  /** How many events are stamped after `now`. */
  function Ahead(h: History, now: real): nat {
    Newer(h, now + WINDOW)
  }

  /** How many events are stamped in the `width` seconds that end at `t`, open at their old end. */
  function InLast(h: History, width: real, t: real): nat {
    if h == [] then 0
    else InLast(h[..|h| - 1], width, t) + if t - width < h[|h| - 1] <= t then 1 else 0
  }

  /** How many events are stamped in the 60 seconds that end at `t`. */
  function Within(h: History, t: real): nat {
    InLast(h, WINDOW, t)
  }

  /** The answer that a full history calls for, counted as the code counts. */
  predicate Accepted(h: History, limit: int, now: real) {
    Newer(h, now) < limit
  }

  function Extend(h: History, limit: int, now: real): History {
    if Accepted(h, limit, now) then h + [now] else h
  }

  /** What the code counts in a history: the events of the last 60 seconds and those stamped after `now`. */
  lemma {:induction false} NewerIsWithinOrAhead(h: History, now: real)
    ensures Newer(h, now) == Within(h, now) + Ahead(h, now)
  {
    if h != [] {
      NewerIsWithinOrAhead(h[..|h| - 1], now);
    }
  }

  lemma {:induction false} NoneIsAhead(h: History, now: real)
    requires NotAfter(h, now)
    ensures Ahead(h, now) == 0 && Newer(h, now) == Within(h, now)
  {
    if h != [] {
      NoneIsAhead(h[..|h| - 1], now);
    }
  }

  lemma {:induction false} LaterNewerAreFewer(h: History, t: real, later: real)
    requires t <= later
    ensures Newer(h, later) <= Newer(h, t)
  {
    if h != [] {
      LaterNewerAreFewer(h[..|h| - 1], t, later);
    }
  }

  /** Every event of a window is among those newer than its old end. */
  lemma {:induction false} InLastIsNewer(h: History, width: real, t: real, now: real)
    requires now - WINDOW <= t - width
    ensures InLast(h, width, t) <= Newer(h, now)
  {
    if h != [] {
      InLastIsNewer(h[..|h| - 1], width, t, now);
    }
  }

  lemma {:induction false} NarrowerHoldsLess(h: History, width: real, wider: real, t: real)
    requires width <= wider
    ensures InLast(h, width, t) <= InLast(h, wider, t)
  {
    if h != [] {
      NarrowerHoldsLess(h[..|h| - 1], width, wider, t);
    }
  }

  /** An event added while fewer than `limit` are stamped in the `WINDOW - slip` seconds before it or
      later brings no window of that width over the limit. */
  lemma OneMoreFits(h: History, event: real, limit: nat, slip: real, t: real)
    requires Newer(h, event + slip) < limit && InLast(h, WINDOW - slip, t) <= limit
    ensures InLast(h + [event], WINDOW - slip, t) <= limit
  {
    hide Newer;
    InLastAppend(h, event, WINDOW - slip, t);
    if t - (WINDOW - slip) < event <= t {
      InLastIsNewer(h, WINDOW - slip, t, event + slip);
    }
  }

  ghost predicate Ascending(h: seq<real>) {
    forall i, j :: 0 <= i < j < |h| ==> h[i] <= h[j]
  }

  ghost predicate NotAfter(h: seq<real>, now: real) {
    forall i :: 0 <= i < |h| ==> h[i] <= now
  }

  /** The events still counted, as the deque keeps them. */
  function Recent(h: seq<real>, now: real): (r: seq<real>)
    ensures |r| <= |h| && r == h[|h| - |r|..]
    ensures r != [] ==> r[0] > now - WINDOW
  {
    if h != [] && h[0] <= now - WINDOW then Recent(h[1..], now) else h
  }

  // ------------------------------------------------------------- one deque

  class SlidingWindowCounter<Target(==)> {
    var events: map<Target, seq<real>>

    constructor ()
      ensures events == map[]
    {
      events := map[];
    }

    function Deque(target: Target): seq<real>
      reads this
    {
      if target in events then events[target] else []
    }

    /** `acquire`: drop the old events from the front, then count what is left. */
    method Acquire(target: Target, limit: int, now: real) returns (allowed: bool)
      modifies this
      ensures allowed == (|Recent(old(Deque(target)), now)| < limit)
      ensures events == old(events)[target := Recent(old(Deque(target)), now) + if allowed then [now] else []]
    {
      var queue := Deque(target);
      ghost var start := queue;
      while queue != [] && queue[0] <= now - WINDOW
        invariant Recent(queue, now) == Recent(start, now)
        decreases |queue|
      {
        queue := queue[1..];
      }
      if |queue| >= limit {
        events := events[target := queue];
        assert queue + [] == queue;
        return false;
      }
      events := events[target := queue + [now]];
      return true;
    }
  }

  // ---------------------------------------------------------- the shared table

  datatype Row = Row(scope: string, target: string, occurredAt: real)

  /** `DELETE ... WHERE occurred_at <= ?` over every scope and target. */
  function DeleteOld(rows: seq<Row>, now: real): seq<Row> {
    if rows == [] then []
    else
      var rest := DeleteOld(rows[..|rows| - 1], now);
      if rows[|rows| - 1].occurredAt > now - WINDOW then rest + [rows[|rows| - 1]] else rest
  }

  /** The times of one scope and target, in row order. */
  function Times(rows: seq<Row>, scope: string, target: string): seq<real> {
    if rows == [] then []
    else
      var rest := Times(rows[..|rows| - 1], scope, target);
      var last := rows[|rows| - 1];
      if last.scope == scope && last.target == target then rest + [last.occurredAt] else rest
  }

  // ------------------------------------------- the deque against the history

  /** The events counted at `now`, by filtering. */
  function Counted(h: History, now: real): History {
    if h == [] then []
    else
      var rest := Counted(h[..|h| - 1], now);
      if h[|h| - 1] > now - WINDOW then rest + [h[|h| - 1]] else rest
  }

  lemma {:induction false} CountedSize(h: History, now: real)
    ensures |Counted(h, now)| == Newer(h, now)
  {
    if h != [] {
      CountedSize(h[..|h| - 1], now);
    }
  }

  lemma CountedAppend(h: History, t: real, now: real)
    ensures Counted(h + [t], now) == if t > now - WINDOW then Counted(h, now) + [t] else Counted(h, now)
  {
    assert (h + [t])[..|h|] == h;
  }

  lemma {:induction false} CountedTwice(h: History, earlier: real, now: real)
    requires earlier <= now
    ensures Counted(Counted(h, earlier), now) == Counted(h, now)
  {
    if h != [] {
      CountedTwice(h[..|h| - 1], earlier, now);
      CountedAppend(Counted(h[..|h| - 1], earlier), h[|h| - 1], now);
    }
  }

  lemma {:induction false} AllCounted(h: History, now: real)
    requires forall i :: 0 <= i < |h| ==> h[i] > now - WINDOW
    ensures Counted(h, now) == h
  {
    if h != [] {
      AllCounted(h[..|h| - 1], now);
    }
  }

  lemma {:induction false} CountedTail(h: History, now: real)
    requires h != [] && h[0] <= now - WINDOW
    ensures Counted(h, now) == Counted(h[1..], now)
  {
    if |h| == 1 {
      assert h[..0] == [] && h[1..] == [];
    } else {
      CountedTail(h[..|h| - 1], now);
      assert h[..|h| - 1][1..] == h[1..][..|h| - 2];
    }
  }

  /** On an ordered queue, dropping from the front is filtering. */
  lemma {:induction false} RecentIsCounted(h: History, now: real)
    requires Ascending(h)
    ensures Recent(h, now) == Counted(h, now)
  {
    if h != [] && h[0] <= now - WINDOW {
      RecentIsCounted(h[1..], now);
      CountedTail(h, now);
    } else {
      AllCounted(h, now);
    }
  }

  lemma AscendingAppend(h: History, t: real, now: real)
    requires Ascending(h) && NotAfter(h, t) && t <= now
    ensures Ascending(h + [t]) && NotAfter(h + [t], now)
  {
  }

  lemma RecentKeepsOrder(h: History, now: real, t: real)
    requires Ascending(h) && NotAfter(h, t)
    ensures Ascending(Recent(h, now)) && NotAfter(Recent(h, now), t)
  {
    hide Recent;
    var r := Recent(h, now);
    var k := |h| - |r|;
    forall i | 0 <= i < |r|
      ensures r[i] == h[k + i]
    {
    }
  }

  /** One request to one target: its limit may change from request to request. */
  datatype Request = Request(limit: int, now: real)

  ghost predicate Nondecreasing(rs: seq<Request>) {
    forall i, j :: 0 <= i < j < |rs| ==> rs[i].now <= rs[j].now
  }

  /** The full accepted history of a target after its requests. */
  function HistoryOf(rs: seq<Request>): History {
    if rs == [] then [] else Extend(HistoryOf(rs[..|rs| - 1]), rs[|rs| - 1].limit, rs[|rs| - 1].now)
  }

  /** The deque of a target after its requests. */
  function DequeOf(rs: seq<Request>): seq<real> {
    if rs == [] then []
    else
      var r := rs[|rs| - 1];
      var queue := Recent(DequeOf(rs[..|rs| - 1]), r.now);
      if |queue| < r.limit then queue + [r.now] else queue
  }

  ghost predicate Before(rs: seq<Request>, now: real) {
    forall i :: 0 <= i < |rs| ==> rs[i].now <= now
  }

  lemma {:induction false} DequeIsAscending(rs: seq<Request>, now: real)
    requires Nondecreasing(rs) && Before(rs, now)
    ensures Ascending(DequeOf(rs)) && NotAfter(DequeOf(rs), now)
  {
    hide Recent;
    if rs != [] {
      var before, r := rs[..|rs| - 1], rs[|rs| - 1];
      DequeIsAscending(before, r.now);
      RecentKeepsOrder(DequeOf(before), r.now, r.now);
      AscendingAppend(Recent(DequeOf(before), r.now), r.now, now);
    }
  }

  lemma {:induction false} DequeHoldsRecentHistory(rs: seq<Request>, now: real)
    requires Nondecreasing(rs) && Before(rs, now)
    ensures Counted(DequeOf(rs), now) == Counted(HistoryOf(rs), now)
  {
    hide Recent, Counted, Newer;
    if rs != [] {
      var before, r := rs[..|rs| - 1], rs[|rs| - 1];
      DequeHoldsRecentHistory(before, r.now);
      DequeIsAscending(before, r.now);
      var queue, h := DequeOf(before), HistoryOf(before);
      RecentIsCounted(queue, r.now);
      CountedSize(h, r.now);
      CountedTwice(h, r.now, now);
      CountedAppend(Counted(h, r.now), r.now, now);
      CountedAppend(h, r.now, now);
    }
  }

  lemma {:induction false} HistoryIsPast(rs: seq<Request>, now: real)
    requires Before(rs, now)
    ensures NotAfter(HistoryOf(rs), now)
  {
    hide Newer;
    if rs != [] {
      HistoryIsPast(rs[..|rs| - 1], now);
    }
  }

  /** With a clock that does not go back, the deque answers exactly what the full history would: yes
      when fewer than `limit` accepted events are less than 60 seconds old. */
  lemma DequeAnswersFromHistory(rs: seq<Request>, r: Request)
    requires Nondecreasing(rs + [r])
    ensures |Recent(DequeOf(rs), r.now)| < r.limit <==> Accepted(HistoryOf(rs), r.limit, r.now)
    ensures |Recent(DequeOf(rs), r.now)| < r.limit <==> Within(HistoryOf(rs), r.now) < r.limit
  {
    var all := rs + [r];
    forall i | 0 <= i < |rs|
      ensures rs[i].now <= r.now
    {
      assert all[i] == rs[i] && all[|rs|] == r;
    }
    forall i, j | 0 <= i < j < |rs|
      ensures rs[i].now <= rs[j].now
    {
      assert all[i] == rs[i] && all[j] == rs[j];
    }
    hide Newer, Counted, Recent, DequeOf, HistoryOf;
    DequeIsAscending(rs, r.now);
    RecentIsCounted(DequeOf(rs), r.now);
    DequeHoldsRecentHistory(rs, r.now);
    CountedSize(HistoryOf(rs), r.now);
    HistoryIsPast(rs, r.now);
    NoneIsAhead(HistoryOf(rs), r.now);
  }

  /** A limiter that kept every accepted event would let no 60 seconds, wherever they end, hold more than
      `limit` of them, however its clock moved. */
  lemma {:induction false} NoWindowExceedsTheLimit(rs: seq<Request>, limit: nat, t: real)
    requires OneLimit(rs, limit)
    ensures Within(HistoryOf(rs), t) <= limit
  {
    hide Newer, InLast;
    if rs == [] {
      NothingInLast(WINDOW, t);
    } else {
      var before, r := rs[..|rs| - 1], rs[|rs| - 1];
      NoWindowExceedsTheLimit(before, limit, t);
      if Accepted(HistoryOf(before), limit, r.now) {
        OneMoreFits(HistoryOf(before), r.now, limit, 0.0, t);
      }
    }
  }

  ghost predicate OneLimit(rs: seq<Request>, limit: nat) {
    forall i :: 0 <= i < |rs| ==> rs[i].limit == limit
  }

  lemma NothingInLast(width: real, t: real)
    ensures InLast([], width, t) == 0
  {
  }

  lemma NewerOfTwo(a: real, b: real, now: real)
    ensures Newer([a], now) == if a > now - WINDOW then 1 else 0
    ensures Newer([a, b], now) == (if a > now - WINDOW then 1 else 0) + if b > now - WINDOW then 1 else 0
    ensures a <= now - WINDOW ==> Recent([a], now) == []
  {
    assert [a, b][..1] == [a] && [a][..0] == [];
  }

  // ------------------------------------------------- the deque, whatever the clock

  /** The events the deque accepted, dropped since or not. */
  function TakenBy(rs: seq<Request>): History {
    if rs == [] then []
    else
      var before, r := rs[..|rs| - 1], rs[|rs| - 1];
      if |Recent(DequeOf(before), r.now)| < r.limit then TakenBy(before) + [r.now] else TakenBy(before)
  }

  /** What a request at `now` drops from the front. */
  function Popped(queue: seq<real>, now: real): seq<real> {
    queue[..|queue| - |Recent(queue, now)|]
  }

  /** The events the deque has dropped. */
  function Dropped(rs: seq<Request>): History {
    if rs == [] then [] else Dropped(rs[..|rs| - 1]) + Popped(DequeOf(rs[..|rs| - 1]), rs[|rs| - 1].now)
  }

  /** It drops from its front only, so it holds the last events taken. */
  lemma {:induction false} DroppedThenHeld(rs: seq<Request>)
    ensures TakenBy(rs) == Dropped(rs) + DequeOf(rs)
  {
    hide Recent, Popped;
    if rs != [] {
      var before, r := rs[..|rs| - 1], rs[|rs| - 1];
      DroppedThenHeld(before);
      PoppedThenKept(DequeOf(before), r.now);
    }
  }

  lemma PoppedThenKept(queue: seq<real>, now: real)
    ensures Popped(queue, now) + Recent(queue, now) == queue
  {
    hide Recent;
  }

  /** How many events of `h` are not newer than `now - 60`. */
  function Older(h: History, now: real): nat {
    if h == [] then 0 else Older(h[..|h| - 1], now) + if h[|h| - 1] > now - WINDOW then 0 else 1
  }

  ghost predicate AllOlder(h: History, now: real) {
    forall k :: 0 <= k < |h| ==> h[k] <= now - WINDOW
  }

  ghost predicate AllNewer(h: History, now: real) {
    forall k :: 0 <= k < |h| ==> h[k] > now - WINDOW
  }

  lemma {:induction false} NewerAndOlder(h: History, now: real)
    ensures Newer(h, now) + Older(h, now) == |h|
    ensures Newer(h, now) == 0 <==> AllOlder(h, now)
    ensures Older(h, now) == 0 <==> AllNewer(h, now)
  {
    if h != [] {
      NewerAndOlder(h[..|h| - 1], now);
      assert h == h[..|h| - 1] + [h[|h| - 1]];
    }
  }

  lemma {:induction false} NewerConcat(a: History, b: History, now: real)
    ensures Newer(a + b, now) == Newer(a, now) + Newer(b, now)
  {
    if b == [] {
      assert a + b == a;
    } else {
      assert (a + b)[..|a + b| - 1] == a + b[..|b| - 1];
      NewerConcat(a, b[..|b| - 1], now);
    }
  }

  lemma AllOlderEmpty(now: real)
    ensures AllOlder([], now)
  {
  }

  lemma AllOlderCons(event: real, h: History, now: real)
    requires event <= now - WINDOW && AllOlder(h, now)
    ensures AllOlder([event] + h, now)
  {
  }

  /** Where dropping from the front stops. */
  lemma {:induction false} RecentCut(queue: seq<real>, now: real) returns (d: nat)
    ensures d <= |queue| && Recent(queue, now) == queue[d..]
    ensures AllOlder(queue[..d], now) && (d < |queue| ==> queue[d] > now - WINDOW)
  {
    hide AllOlder;
    if queue != [] && queue[0] <= now - WINDOW {
      var e := RecentCut(queue[1..], now);
      d := e + 1;
      CutBehindFirst(queue, e);
      AllOlderCons(queue[0], queue[1..][..e], now);
    } else {
      AllOlderEmpty(now);
      d := 0;
      assert queue[..d] == [] && queue[d..] == queue;
    }
  }

  lemma CutBehindFirst(queue: seq<real>, d: nat)
    requires d < |queue|
    ensures queue[1..][d..] == queue[d + 1..] && [queue[0]] + queue[1..][..d] == queue[..d + 1]
  {
  }

  /** Events in front of the first recent one are not counted, now or later. */
  lemma PoppedAreOld(queue: seq<real>, now: real, later: real)
    requires now <= later
    ensures Newer(Recent(queue, now), later) == Newer(queue, later)
    ensures Counted(Recent(queue, now), later) == Counted(queue, later)
  {
    hide Recent, Newer, Counted, Older, AllNewer;
    var d := RecentCut(queue, now);
    assert queue[..d] + queue[d..] == queue;
    NewerConcat(queue[..d], queue[d..], later);
    NewerAndOlder(queue[..d], later);
    CountedConcat(queue[..d], queue[d..], later);
    CountedSize(queue[..d], later);
    assert Counted(queue[..d], later) == [];
  }

  /** The events out of the window that the deque still counts, since they stand behind one in it. */
  function Overstaying(rs: seq<Request>, now: real): nat {
    Older(Recent(DequeOf(rs), now), now)
  }

  /** The dropped events that are in the 60 seconds that end at `now`. */
  function Missed(rs: seq<Request>, now: real): nat {
    Within(Dropped(rs), now)
  }

  lemma WithinConcat(a: History, b: History, now: real)
    ensures Within(a + b, now) == Within(a, now) + Within(b, now)
    ensures Ahead(a + b, now) == Ahead(a, now) + Ahead(b, now)
  {
    hide Newer, Within;
    NewerIsWithinOrAhead(a, now);
    NewerIsWithinOrAhead(b, now);
    NewerIsWithinOrAhead(a + b, now);
    NewerConcat(a, b, now);
    NewerConcat(a, b, now + WINDOW);
  }

  /** By how much the deque miscounts the events of the last 60 seconds, for any requests at any times:
      it misses dropped events, and counts too many that overstay or are stamped after `now`. */
  lemma DequeMiscounts(rs: seq<Request>, now: real)
    ensures |Recent(DequeOf(rs), now)| + Missed(rs, now)
            == Within(TakenBy(rs), now) + Overstaying(rs, now) + Ahead(DequeOf(rs), now)
  {
    hide Dropped, Recent, Newer, Within, Ahead, Older, DequeOf, TakenBy;
    DroppedThenHeld(rs);
    WithinConcat(Dropped(rs), DequeOf(rs), now);
    PoppedAreOld(DequeOf(rs), now, now);
    NewerIsWithinOrAhead(DequeOf(rs), now);
    NewerAndOlder(Recent(DequeOf(rs), now), now);
  }

  /** The answer to a request with this limit is the one the last 60 seconds of the events taken call for. */
  ghost predicate RightFor(rs: seq<Request>, limit: int, now: real) {
    |Recent(DequeOf(rs), now)| < limit <==> Within(TakenBy(rs), now) < limit
  }

  /** Whatever the clock did before and does now, the deque answers right for every limit exactly when
      as many events of the last 60 seconds have been dropped as older or later ones are counted. */
  lemma DequeIsRightExactlyWhenErrorsCancel(rs: seq<Request>, now: real)
    ensures (forall limit: int :: RightFor(rs, limit, now))
            <==> Missed(rs, now) == Overstaying(rs, now) + Ahead(DequeOf(rs), now)
  {
    hide Recent, Newer, Within, Ahead, DequeOf, TakenBy, Missed, Overstaying;
    var n, m := |Recent(DequeOf(rs), now)|, Within(TakenBy(rs), now);
    DequeMiscounts(rs, now);
    if n != m {
      assert !RightFor(rs, if n < m then m else n, now);
    }
  }

  /** No event out of the window stands behind one in it. */
  ghost predicate LeavesInOrder(queue: seq<real>, now: real) {
    forall i, j :: 0 <= i < j < |queue| && queue[j] <= now - WINDOW ==> queue[i] <= now - WINDOW
  }

  /** The events of the 60 seconds that end at `now`. */
  function Window(h: History, now: real): History {
    if h == [] then []
    else
      var rest := Window(h[..|h| - 1], now);
      if now - WINDOW < h[|h| - 1] <= now then rest + [h[|h| - 1]] else rest
  }

  ghost predicate InsideWindow(h: History, now: real) {
    forall k :: 0 <= k < |h| ==> now - WINDOW < h[k] <= now
  }

  lemma {:induction false} WindowSize(h: History, now: real)
    ensures |Window(h, now)| == Within(h, now)
  {
    if h != [] {
      WindowSize(h[..|h| - 1], now);
    }
  }

  lemma {:induction false} WindowIsInside(h: History, now: real)
    ensures InsideWindow(Window(h, now), now)
  {
    if h != [] {
      WindowIsInside(h[..|h| - 1], now);
    }
  }

  lemma {:induction false} WindowIsCounted(h: History, now: real)
    requires Ahead(h, now) == 0
    ensures Window(h, now) == Counted(h, now)
  {
    if h != [] {
      WindowIsCounted(h[..|h| - 1], now);
    }
  }

  lemma {:induction false} WindowConcat(a: History, b: History, now: real)
    ensures Window(a + b, now) == Window(a, now) + Window(b, now)
  {
    if b == [] {
      assert a + b == a;
      assert Window(a, now) + [] == Window(a, now);
    } else {
      assert (a + b)[..|a + b| - 1] == a + b[..|b| - 1];
      WindowConcat(a, b[..|b| - 1], now);
    }
  }

  /** The deque counts the very events of the last 60 seconds exactly when none of them was dropped, no
      older event stands behind a newer one, and none is stamped after `now`. */
  lemma DequeHoldsTheWindowExactly(rs: seq<Request>, now: real)
    ensures Recent(DequeOf(rs), now) == Window(TakenBy(rs), now)
            <==> Missed(rs, now) == 0 && LeavesInOrder(DequeOf(rs), now) && Ahead(DequeOf(rs), now) == 0
  {
    hide Newer, Within, Ahead, Older, DequeOf, TakenBy, Counted, Recent, AllOlder, AllNewer, LeavesInOrder, Window, InsideWindow;
    DequeMiscounts(rs, now);
    KeptAreInOrder(DequeOf(rs), now);
    NewerAndOlder(Recent(DequeOf(rs), now), now);
    if Recent(DequeOf(rs), now) == Window(TakenBy(rs), now) {
      WindowSize(TakenBy(rs), now);
      WindowIsInside(TakenBy(rs), now);
      InsideIsNewer(Recent(DequeOf(rs), now), now);
      PoppedAreNotAhead(DequeOf(rs), now);
    }
    if Missed(rs, now) == 0 && LeavesInOrder(DequeOf(rs), now) && Ahead(DequeOf(rs), now) == 0 {
      WindowOfUndropped(rs, now);
    }
  }

  lemma InsideIsNewer(h: History, now: real)
    requires InsideWindow(h, now)
    ensures AllNewer(h, now) && Ahead(h, now) == 0
  {
    hide Newer;
    NoneIsAhead(h, now);
  }

  lemma PoppedAreNotAhead(queue: seq<real>, now: real)
    ensures Ahead(Recent(queue, now), now) == Ahead(queue, now)
  {
    hide Newer, Recent;
    PoppedAreOld(queue, now, now + WINDOW);
  }

  lemma WindowOfUndropped(rs: seq<Request>, now: real)
    requires Missed(rs, now) == 0 && LeavesInOrder(DequeOf(rs), now) && Ahead(DequeOf(rs), now) == 0
    ensures Recent(DequeOf(rs), now) == Window(TakenBy(rs), now)
  {
    hide Dropped, Newer, Within, Ahead, DequeOf, TakenBy, Counted, Recent, AllNewer, LeavesInOrder, Window;
    var dropped, queue := Dropped(rs), DequeOf(rs);
    DroppedThenHeld(rs);
    WindowConcat(dropped, queue, now);
    WindowSize(dropped, now);
    assert Window(dropped, now) == [];
    WindowIsCounted(queue, now);
    PoppedAreOld(queue, now, now);
    KeptAreInOrder(queue, now);
    CountedIsAll(Recent(queue, now), now);
  }

  lemma {:induction false} CountedConcat(a: History, b: History, now: real)
    ensures Counted(a + b, now) == Counted(a, now) + Counted(b, now)
  {
    if b == [] {
      assert a + b == a;
      assert Counted(a, now) + [] == Counted(a, now);
    } else {
      assert (a + b)[..|a + b| - 1] == a + b[..|b| - 1];
      CountedConcat(a, b[..|b| - 1], now);
    }
  }

  lemma {:induction false} CountedAreNewer(h: History, now: real)
    ensures AllNewer(Counted(h, now), now)
  {
    if h != [] {
      CountedAreNewer(h[..|h| - 1], now);
    }
  }

  lemma CountedIsAll(h: History, now: real)
    ensures Counted(h, now) == h <==> AllNewer(h, now)
  {
    CountedAreNewer(h, now);
    if AllNewer(h, now) {
      AllCounted(h, now);
    }
  }

  lemma KeptAreInOrder(queue: seq<real>, now: real)
    ensures AllNewer(Recent(queue, now), now) <==> LeavesInOrder(queue, now)
  {
    hide Recent;
    var d := RecentCut(queue, now);
    var kept := queue[d..];
    if LeavesInOrder(queue, now) {
      forall k | 0 <= k < |kept|
        ensures kept[k] > now - WINDOW
      {
        assert kept[k] == queue[d + k];
      }
    }
    if AllNewer(kept, now) {
      forall j | d <= j < |queue|
        ensures queue[j] > now - WINDOW
      {
        assert kept[j - d] == queue[j];
      }
      forall i | 0 <= i < d
        ensures queue[i] <= now - WINDOW
      {
        assert queue[..d][i] == queue[i];
      }
    }
  }

  /** For a clock that does not go back the events taken are the ones the full history accepts. */
  lemma {:induction false} TakenIsHistory(rs: seq<Request>)
    requires Nondecreasing(rs)
    ensures TakenBy(rs) == HistoryOf(rs)
  {
    hide Recent, Newer, DequeOf;
    if rs != [] {
      var before, r := rs[..|rs| - 1], rs[|rs| - 1];
      TakenIsHistory(before);
      assert before + [r] == rs;
      DequeAnswersFromHistory(before, r);
    }
  }

  lemma FirstRequest(r: Request)
    requires r.limit > 0
    ensures HistoryOf([r]) == [r.now] && DequeOf([r]) == [r.now] && TakenBy([r]) == [r.now]
  {
    assert [r][..0] == [];
  }

  /** One step of both, unfolded. */
  lemma AfterRequest(rs: seq<Request>)
    requires rs != []
    ensures var before, r := rs[..|rs| - 1], rs[|rs| - 1];
            && HistoryOf(rs) == Extend(HistoryOf(before), r.limit, r.now)
            && DequeOf(rs) == (if |Recent(DequeOf(before), r.now)| < r.limit then Recent(DequeOf(before), r.now) + [r.now]
                               else Recent(DequeOf(before), r.now))
            && TakenBy(rs) == (if |Recent(DequeOf(before), r.now)| < r.limit then TakenBy(before) + [r.now] else TakenBy(before))
  {
  }

  /** Request `i` was accepted. */
  predicate Takes(rs: seq<Request>, i: int) {
    0 <= i < |rs| && |Recent(DequeOf(rs[..i]), rs[i].now)| < rs[i].limit
  }

  /** At each accepted request, every event dropped before is at least `WINDOW - slip` seconds old. */
  ghost predicate DroppedStayOld(rs: seq<Request>, slip: real) {
    forall i :: Takes(rs, i) ==> Newer(Dropped(rs[..i]), rs[i].now + slip) == 0
  }

  lemma DroppedStayOldBefore(rs: seq<Request>, slip: real)
    requires rs != [] && DroppedStayOld(rs, slip)
    ensures DroppedStayOld(rs[..|rs| - 1], slip)
    ensures Takes(rs, |rs| - 1) ==> Newer(Dropped(rs[..|rs| - 1]), rs[|rs| - 1].now + slip) == 0
  {
    hide Newer, Dropped, Recent, DequeOf;
    var before := rs[..|rs| - 1];
    forall i | Takes(before, i)
      ensures Newer(Dropped(before[..i]), before[i].now + slip) == 0
    {
      assert before[..i] == rs[..i];
      assert Takes(rs, i);
    }
  }

  /** With one limit, and any clock that never brings a dropped event back into the last `WINDOW - slip`
      seconds of an accepted request, no `WINDOW - slip` seconds hold more than `limit` events taken. */
  lemma {:induction false} DequeKeepsTheLimit(rs: seq<Request>, limit: nat, slip: real, t: real)
    requires OneLimit(rs, limit) && 0.0 <= slip && DroppedStayOld(rs, slip)
    ensures InLast(TakenBy(rs), WINDOW - slip, t) <= limit
  {
    hide Newer, InLast, Recent, DequeOf, DroppedStayOld;
    if rs == [] {
      NothingInLast(WINDOW - slip, t);
    } else {
      var before, r := rs[..|rs| - 1], rs[|rs| - 1];
      DroppedStayOldBefore(rs, slip);
      DequeKeepsTheLimit(before, limit, slip, t);
      if |Recent(DequeOf(before), r.now)| < limit {
        assert Takes(rs, |rs| - 1);
        TakenAreCounted(before, r.now, slip);
        OneMoreFits(TakenBy(before), r.now, limit, slip, t);
      }
    }
  }

  lemma TakenAreCounted(rs: seq<Request>, now: real, slip: real)
    requires 0.0 <= slip && Newer(Dropped(rs), now + slip) == 0
    ensures Newer(TakenBy(rs), now + slip) <= |Recent(DequeOf(rs), now)|
  {
    hide Dropped, Newer, Recent, DequeOf, TakenBy;
    DroppedThenHeld(rs);
    NewerAreKept(Dropped(rs), DequeOf(rs), now, now + slip);
  }

  lemma NewerAreKept(dropped: History, queue: History, now: real, later: real)
    requires now <= later && Newer(dropped, later) == 0
    ensures Newer(dropped + queue, later) <= |Recent(queue, now)|
  {
    hide Newer, Recent, Older, AllNewer, AllOlder, Counted;
    NewerConcat(dropped, queue, later);
    LaterNewerAreFewer(queue, now, later);
    PoppedAreOld(queue, now, now);
    NewerAndOlder(Recent(queue, now), now);
  }

  /** The clock is never more than `slip` seconds behind an earlier reading. */
  ghost predicate Slips(rs: seq<Request>, slip: real) {
    forall i, j :: 0 <= i < j < |rs| ==> rs[i].now - slip <= rs[j].now
  }

  lemma OlderLater(h: History, now: real, later: real)
    requires AllOlder(h, now) && now <= later
    ensures AllOlder(h, later)
  {
  }

  lemma OlderConcat(a: History, b: History, now: real)
    requires AllOlder(a, now) && AllOlder(b, now)
    ensures AllOlder(a + b, now)
  {
  }

  /** What was dropped was a whole window behind some reading. */
  lemma {:induction false} DroppedAreOld(rs: seq<Request>, latest: real)
    requires Before(rs, latest)
    ensures AllOlder(Dropped(rs), latest)
  {
    hide Recent, DequeOf, AllOlder, Popped;
    AllOlderEmpty(latest);
    if rs != [] {
      var before, r := rs[..|rs| - 1], rs[|rs| - 1];
      DroppedAreOld(before, latest);
      PoppedAreOlder(DequeOf(before), r.now);
      OlderLater(Popped(DequeOf(before), r.now), r.now, latest);
      OlderConcat(Dropped(before), Popped(DequeOf(before), r.now), latest);
    }
  }

  lemma PoppedAreOlder(queue: seq<real>, now: real)
    ensures AllOlder(Popped(queue, now), now)
  {
    hide Recent, AllOlder;
    var d := RecentCut(queue, now);
    assert Popped(queue, now) == queue[..d];
  }

  lemma SlipKeepsDroppedOld(rs: seq<Request>, slip: real)
    requires Slips(rs, slip)
    ensures DroppedStayOld(rs, slip)
  {
    hide Newer, Dropped, Recent, DequeOf, AllOlder, Older, AllNewer;
    forall i | Takes(rs, i)
      ensures Newer(Dropped(rs[..i]), rs[i].now + slip) == 0
    {
      DroppedAreOld(rs[..i], rs[i].now + slip);
      NewerAndOlder(Dropped(rs[..i]), rs[i].now + slip);
    }
  }

  /** No run with one limit takes more than it in any `width` seconds, if its clock slips back by at most `slip`. */
  ghost predicate DequeGuarantees(width: real, slip: real) {
    forall rs, limit: nat, t :: OneLimit(rs, limit) && Slips(rs, slip) ==> InLast(TakenBy(rs), width, t) <= limit
  }

  /** A clock that slips back by up to `slip` seconds costs the deque exactly that much of its window. */
  lemma DequeGuaranteesExactly(width: real, slip: real)
    requires 0.0 <= slip && 0.0 < width
    ensures DequeGuarantees(width, slip) <==> width <= WINDOW - slip
  {
    hide InLast, TakenBy;
    if width <= WINDOW - slip {
      forall rs, limit: nat, t | OneLimit(rs, limit) && Slips(rs, slip)
        ensures InLast(TakenBy(rs), width, t) <= limit
      {
        SlipKeepsDroppedOld(rs, slip);
        DequeKeepsTheLimit(rs, limit, slip, t);
        NarrowerHoldsLess(TakenBy(rs), width, WINDOW - slip, t);
      }
    } else {
      var c := if slip < WINDOW then WINDOW - slip else 0.0;
      var rs := FourRequests(0.0, WINDOW, c);
      assert OneLimit(rs, 2) && Slips(rs, slip);
      ClockGoingBackBreaksTheLimit(0.0, WINDOW, c, width);
      assert InLast(TakenBy(rs), width, c) > 2;
    }
  }

  /** Four requests of limit 2: two at `a`, one at `b`, one at `c`. */
  function FourRequests(a: real, b: real, c: real): seq<Request> {
    [Request(2, a), Request(2, a), Request(2, b), Request(2, c)]
  }

  /** The clock goes back from `b` to `c`: once the events at `a` are dropped, the limit of 2 lets a third
      event into one window with them. */
  lemma ClockGoingBackBreaksTheLimit(a: real, b: real, c: real, width: real)
    requires a <= b - WINDOW && a <= c < a + width
    ensures var taken := TakenBy(FourRequests(a, b, c));
            taken == [a, a, b, c] && InLast(taken, width, c) >= 3
  {
    hide InLast, Recent, DequeOf, TakenBy;
    AllFourAreTaken(a, b, c);
    ThreeOfFour(a, b, c, width);
  }

  lemma AllFourAreTaken(a: real, b: real, c: real)
    requires a <= b - WINDOW
    ensures TakenBy(FourRequests(a, b, c)) == [a, a, b, c]
  {
    hide Recent, DequeOf, TakenBy;
    var one := [Request(2, a)];
    var two := one + [Request(2, a)];
    var three := two + [Request(2, b)];
    assert three + [Request(2, c)] == FourRequests(a, b, c);
    FirstRequest(Request(2, a));
    FrontStays([a], a);
    NextRequest(one, 2, a, [a]);
    assert DequeOf(two) == [a, a] && TakenBy(two) == [a, a];
    BothLeave(a, b);
    NextRequest(two, 2, b, []);
    assert DequeOf(three) == [b] && TakenBy(three) == [a, a, b];
    NextRequest(three, 2, c, Recent([b], c));
    assert [a, a, b] + [c] == [a, a, b, c];
  }

  lemma NextRequest(rs: seq<Request>, limit: int, now: real, kept: seq<real>)
    requires Recent(DequeOf(rs), now) == kept && |kept| < limit
    ensures DequeOf(rs + [Request(limit, now)]) == kept + [now]
    ensures TakenBy(rs + [Request(limit, now)]) == TakenBy(rs) + [now]
  {
    assert (rs + [Request(limit, now)])[..|rs|] == rs;
  }

  lemma BothLeave(a: real, now: real)
    requires a <= now - WINDOW
    ensures Recent([a, a], now) == []
  {
    assert [a, a][1..] == [a] && [a][1..] == [];
  }

  lemma InLastAppend(h: History, event: real, width: real, t: real)
    ensures InLast(h + [event], width, t) == InLast(h, width, t) + if t - width < event <= t then 1 else 0
  {
    assert (h + [event])[..|h|] == h;
  }

  lemma ThreeOfFour(a: real, b: real, c: real, width: real)
    requires a <= c < a + width
    ensures InLast([a, a, b, c], width, c) >= 3
  {
    hide InLast;
    NothingInLast(width, c);
    InLastAppend([], a, width, c);
    InLastAppend([a], a, width, c);
    InLastAppend([a, a], b, width, c);
    InLastAppend([a, a, b], c, width, c);
    assert [] + [a] == [a] && [a] + [a] == [a, a] && [a, a] + [b] == [a, a, b] && [a, a, b] + [c] == [a, a, b, c];
  }

  /** An event that overstays: taken while the clock was behind, it is still counted after it has left
      the window, and a request is refused although only one event is in the window. */
  lemma OverstayingEventRefuses(a: real, b: real, c: real)
    requires b - WINDOW < a && b <= c - WINDOW < a <= c
    ensures var rs := [Request(10, a), Request(10, b)];
            |Recent(DequeOf(rs), c)| == 2 && Within(TakenBy(rs), c) == 1 && !RightFor(rs, 2, c)
  {
    BothAreTaken(a, b);
    hide Newer, Recent, DequeOf, TakenBy, Within;
    FrontStays([a, b], c);
    NewerOfTwo(a, b, c);
    assert NotAfter([a, b], c);
    NoneIsAhead([a, b], c);
  }

  /** An event stamped after a clock that has gone back: a request is refused although no event is in
      the 60 seconds before it. */
  lemma LaterEventRefuses(a: real, c: real)
    requires c < a
    ensures var rs := [Request(1, a)];
            |Recent(DequeOf(rs), c)| == 1 && Within(TakenBy(rs), c) == 0 && !RightFor(rs, 1, c)
  {
    FirstRequest(Request(1, a));
    FrontStays([a], c);
    NothingInLast(WINDOW, c);
    InLastAppend([], a, WINDOW, c);
    assert [] + [a] == [a];
  }

  lemma BothAreTaken(a: real, b: real)
    requires b - WINDOW < a
    ensures var rs := [Request(10, a), Request(10, b)];
            DequeOf(rs) == [a, b] && TakenBy(rs) == [a, b]
  {
    hide Newer, Recent, HistoryOf, DequeOf, TakenBy;
    var rs := [Request(10, a), Request(10, b)];
    assert rs[..1] == [Request(10, a)];
    FirstRequest(Request(10, a));
    FrontStays([a], b);
    AfterRequest(rs);
  }

  lemma FrontStays(queue: seq<real>, now: real)
    requires queue != [] && queue[0] > now - WINDOW
    ensures Recent(queue, now) == queue
  {
  }

  // -------------------------------------------- the table against the history

  /** A request of one scope and target to the shared table. */
  datatype TableRequest = TableRequest(scope: string, target: string, limit: int, now: real)

  ghost predicate NondecreasingTable(rs: seq<TableRequest>) {
    forall i, j :: 0 <= i < j < |rs| ==> rs[i].now <= rs[j].now
  }

  /** The rows after the requests of all scopes and targets. */
  function TableOf(rs: seq<TableRequest>): seq<Row> {
    if rs == [] then []
    else
      var r := rs[|rs| - 1];
      var kept := DeleteOld(TableOf(rs[..|rs| - 1]), r.now);
      if |Times(kept, r.scope, r.target)| < r.limit then kept + [Row(r.scope, r.target, r.now)] else kept
  }

  /** The requests of one scope and target. */
  function Only(rs: seq<TableRequest>, scope: string, target: string): seq<Request> {
    if rs == [] then []
    else
      var rest := Only(rs[..|rs| - 1], scope, target);
      var r := rs[|rs| - 1];
      if r.scope == scope && r.target == target then rest + [Request(r.limit, r.now)] else rest
  }

  lemma TimesAppend(rows: seq<Row>, row: Row, scope: string, target: string)
    ensures Times(rows + [row], scope, target) ==
            if row.scope == scope && row.target == target then Times(rows, scope, target) + [row.occurredAt]
            else Times(rows, scope, target)
  {
    assert (rows + [row])[..|rows|] == rows;
  }

  lemma {:induction false} TimesOfDeleted(rows: seq<Row>, now: real, scope: string, target: string)
    ensures Times(DeleteOld(rows, now), scope, target) == Counted(Times(rows, scope, target), now)
  {
    if rows != [] {
      var front, last := rows[..|rows| - 1], rows[|rows| - 1];
      TimesOfDeleted(front, now, scope, target);
      TimesAppend(DeleteOld(front, now), last, scope, target);
      CountedAppend(Times(front, scope, target), last.occurredAt, now);
    }
  }

  lemma TimesOfNone(scope: string, target: string)
    ensures Times([], scope, target) == []
  {
  }

  lemma {:induction false} TableHoldsRecentHistory(rs: seq<TableRequest>, scope: string, target: string, now: real)
    requires NondecreasingTable(rs) && forall i :: 0 <= i < |rs| ==> rs[i].now <= now
    ensures Counted(Times(TableOf(rs), scope, target), now) == Counted(HistoryOf(Only(rs, scope, target)), now)
  {
    hide Counted, Newer, DeleteOld, Times;
    if rs == [] {
      TimesOfNone(scope, target);
    } else {
      var before, r := rs[..|rs| - 1], rs[|rs| - 1];
      var rows := TableOf(before);
      var kept := DeleteOld(rows, r.now);
      var h := HistoryOf(Only(before, scope, target));
      TableHoldsRecentHistory(before, scope, target, r.now);
      TimesOfDeleted(rows, r.now, scope, target);
      CountedTwice(h, r.now, now);
      if r.scope == scope && r.target == target {
        CountedSize(h, r.now);
        var mine := Only(before, scope, target);
        assert (mine + [Request(r.limit, r.now)])[..|mine|] == mine;
      }
      if |Times(kept, r.scope, r.target)| < r.limit {
        TimesAppend(kept, Row(r.scope, r.target, r.now), scope, target);
        CountedAppend(Counted(h, r.now), r.now, now);
        CountedAppend(h, r.now, now);
      }
    }
  }

  /** The table, whose delete runs over every scope and target, answers each request exactly as the
      history of that request's own scope and target would, and so exactly as a deque would: yes when
      fewer than `limit` of its accepted events are less than 60 seconds old. */
  lemma TableAnswersFromHistory(rs: seq<TableRequest>, r: TableRequest)
    requires NondecreasingTable(rs + [r])
    ensures var mine := Only(rs, r.scope, r.target);
            var answer := |Times(DeleteOld(TableOf(rs), r.now), r.scope, r.target)| < r.limit;
            && (answer <==> Accepted(HistoryOf(mine), r.limit, r.now))
            && (answer <==> Within(HistoryOf(mine), r.now) < r.limit)
            && (answer <==> |Recent(DequeOf(mine), r.now)| < r.limit)
  {
    var mine := Only(rs, r.scope, r.target);
    var all := rs + [r];
    forall i | 0 <= i < |rs|
      ensures rs[i].now <= r.now
    {
      assert all[i] == rs[i] && all[|rs|] == r;
    }
    forall i, j | 0 <= i < j < |rs|
      ensures rs[i].now <= rs[j].now
    {
      assert all[i] == rs[i] && all[j] == rs[j];
    }
    TableHoldsRecentHistory(rs, r.scope, r.target, r.now);
    TimesOfDeleted(TableOf(rs), r.now, r.scope, r.target);
    CountedSize(HistoryOf(mine), r.now);
    OnlyIsNondecreasing(rs, r.scope, r.target, r.now);
    DequeAnswersFromHistory(mine, Request(r.limit, r.now));
  }

  lemma {:induction false} OnlyIsNondecreasing(rs: seq<TableRequest>, scope: string, target: string, now: real)
    requires NondecreasingTable(rs) && forall i :: 0 <= i < |rs| ==> rs[i].now <= now
    ensures forall limit :: Nondecreasing(Only(rs, scope, target) + [Request(limit, now)])
    ensures forall i :: 0 <= i < |Only(rs, scope, target)| ==> Only(rs, scope, target)[i].now <= now
  {
    if rs != [] {
      var before, r := rs[..|rs| - 1], rs[|rs| - 1];
      OnlyIsNondecreasing(before, scope, target, r.now);
      var mine := Only(before, scope, target);
      assert Nondecreasing(mine + [Request(r.limit, r.now)]);
      forall i, j | 0 <= i < j < |mine|
        ensures mine[i].now <= mine[j].now
      {
        assert (mine + [Request(r.limit, r.now)])[i] == mine[i] && (mine + [Request(r.limit, r.now)])[j] == mine[j];
      }
    }
  }

  // ------------------------------------------------ the table, whatever the clock

  /** What the table answers to `r` after the requests `rs`. */
  predicate TableAnswer(rs: seq<TableRequest>, r: TableRequest) {
    |Times(DeleteOld(TableOf(rs), r.now), r.scope, r.target)| < r.limit
  }

  /** The events of one scope and target that the table accepted, deleted since or not. */
  function TakenAt(rs: seq<TableRequest>, scope: string, target: string): History {
    if rs == [] then []
    else
      var before, r := rs[..|rs| - 1], rs[|rs| - 1];
      TakenAt(before, scope, target)
      + if r.scope == scope && r.target == target && TableAnswer(before, r) then [r.now] else []
  }

  /** Request `i` was one of this scope and target, and was accepted. */
  predicate Accepts(rs: seq<TableRequest>, scope: string, target: string, i: int) {
    0 <= i < |rs| && rs[i].scope == scope && rs[i].target == target && TableAnswer(rs[..i], rs[i])
  }

  /** The event of request `i`, which a later request saw out of its window, is newer than `now - 60`. */
  predicate ReturnsAt(rs: seq<TableRequest>, scope: string, target: string, i: int, j: int, now: real) {
    i < j < |rs| && Accepts(rs, scope, target, i) && ComesBack(rs[i].now, now, rs[j].now)
  }

  /** An event that was out of the window at `earlier` and is stamped after `now - 60`. */
  predicate ComesBack(event: real, now: real, earlier: real) {
    now - WINDOW < event <= earlier - WINDOW
  }

  ghost predicate NoneReturns(rs: seq<TableRequest>, scope: string, target: string, now: real) {
    forall i, j :: !ReturnsAt(rs, scope, target, i, j, now)
  }

  lemma AcceptsBefore(rs: seq<TableRequest>, scope: string, target: string, i: int)
    requires rs != [] && i < |rs| - 1
    ensures Accepts(rs, scope, target, i) == Accepts(rs[..|rs| - 1], scope, target, i)
  {
    if 0 <= i {
      assert rs[..|rs| - 1][..i] == rs[..i];
    }
  }

  /** A request after request `i` saw the event of request `i` out of its window. */
  ghost predicate Overtaken(rs: seq<TableRequest>, i: int) {
    exists j :: Overtakes(rs, i, j)
  }

  predicate Overtakes(rs: seq<TableRequest>, i: int, j: int) {
    0 <= i < j < |rs| && rs[i].now <= rs[j].now - WINDOW
  }

  /** Of the first `k` requests, the events of one scope and target that were accepted and, by any later
      request of whatever scope and target, deleted. */
  ghost function LostAmong(rs: seq<TableRequest>, scope: string, target: string, k: nat): History
    requires k <= |rs|
  {
    if k == 0 then []
    else
      var rest := LostAmong(rs, scope, target, k - 1);
      if Accepts(rs, scope, target, k - 1) && Overtaken(rs, k - 1) then rest + [rs[k - 1].now] else rest
  }

  ghost function KeptAmong(rs: seq<TableRequest>, scope: string, target: string, k: nat): History
    requires k <= |rs|
  {
    if k == 0 then []
    else
      var rest := KeptAmong(rs, scope, target, k - 1);
      if Accepts(rs, scope, target, k - 1) && !Overtaken(rs, k - 1) then rest + [rs[k - 1].now] else rest
  }

  ghost function Lost(rs: seq<TableRequest>, scope: string, target: string): History {
    LostAmong(rs, scope, target, |rs|)
  }

  lemma OvertakenBefore(rs: seq<TableRequest>, i: int)
    requires rs != [] && 0 <= i < |rs| - 1
    ensures Overtaken(rs, i) <==> Overtaken(rs[..|rs| - 1], i) || rs[i].now <= rs[|rs| - 1].now - WINDOW
  {
    var before, last := rs[..|rs| - 1], |rs| - 1;
    assert forall j :: j != last ==> Overtakes(rs, i, j) == Overtakes(before, i, j);
    assert Overtakes(rs, i, last) <==> rs[i].now <= rs[last].now - WINDOW;
  }

  lemma CountedOfNone(now: real)
    ensures Counted([], now) == []
  {
  }

  /** The last request deletes what it sees out of its window. */
  lemma {:induction false} KeptAfter(rs: seq<TableRequest>, scope: string, target: string, k: nat)
    requires k < |rs|
    ensures KeptAmong(rs, scope, target, k)
            == Counted(KeptAmong(rs[..|rs| - 1], scope, target, k), rs[|rs| - 1].now)
  {
    hide Accepts, Overtaken, Counted;
    if k == 0 {
      CountedOfNone(rs[|rs| - 1].now);
    } else {
      var before, now := rs[..|rs| - 1], rs[|rs| - 1].now;
      KeptAfter(rs, scope, target, k - 1);
      AcceptsBefore(rs, scope, target, k - 1);
      OvertakenBefore(rs, k - 1);
      CountedAppend(KeptAmong(before, scope, target, k - 1), rs[k - 1].now, now);
    }
  }

  /** The rows of one scope and target are the events accepted for it that no later request overtook. */
  lemma {:induction false} RowsAreKept(rs: seq<TableRequest>, scope: string, target: string)
    ensures Times(TableOf(rs), scope, target) == KeptAmong(rs, scope, target, |rs|)
  {
    hide Times, DeleteOld, Counted;
    if rs == [] {
      TimesOfNone(scope, target);
    } else {
      var before, r, last := rs[..|rs| - 1], rs[|rs| - 1], |rs| - 1;
      RowsAreKept(before, scope, target);
      KeptAfter(rs, scope, target, last);
      TimesOfDeleted(TableOf(before), r.now, scope, target);
      TimesAppend(DeleteOld(TableOf(before), r.now), Row(r.scope, r.target, r.now), scope, target);
      assert !Overtaken(rs, last);
    }
  }

  lemma NewerAppend(h: History, event: real, now: real)
    ensures Newer(h + [event], now) == Newer(h, now) + if event > now - WINDOW then 1 else 0
  {
    assert (h + [event])[..|h|] == h;
  }

  /** Every event taken was deleted or is still in its row. */
  lemma {:induction false} TakenSplits(rs: seq<TableRequest>, scope: string, target: string, k: nat, now: real)
    requires k <= |rs|
    ensures Newer(TakenAt(rs[..k], scope, target), now)
            == Newer(LostAmong(rs, scope, target, k), now) + Newer(KeptAmong(rs, scope, target, k), now)
  {
    hide TableAnswer, Overtaken, Newer;
    if k > 0 {
      var r, taken := rs[k - 1], TakenAt(rs[..k - 1], scope, target);
      TakenSplits(rs, scope, target, k - 1, now);
      assert rs[..k][..k - 1] == rs[..k - 1];
      assert taken + [] == taken;
      NewerAppend(taken, r.now, now);
      NewerAppend(LostAmong(rs, scope, target, k - 1), r.now, now);
      NewerAppend(KeptAmong(rs, scope, target, k - 1), r.now, now);
    } else {
      NewerOfNone(now);
    }
  }

  lemma NewerOfNone(now: real)
    ensures Newer([], now) == 0
  {
  }

  lemma TakenIsLostOrKept(rs: seq<TableRequest>, scope: string, target: string, now: real)
    ensures Newer(TakenAt(rs, scope, target), now)
            == Newer(Lost(rs, scope, target), now) + Newer(Times(TableOf(rs), scope, target), now)
    ensures Within(TakenAt(rs, scope, target), now)
            == Within(Lost(rs, scope, target), now) + Within(Times(TableOf(rs), scope, target), now)
  {
    hide Newer, Within, Times, TableOf, TakenAt, LostAmong, KeptAmong;
    assert rs[..|rs|] == rs;
    RowsAreKept(rs, scope, target);
    TakenSplits(rs, scope, target, |rs|, now);
    TakenSplits(rs, scope, target, |rs|, now + WINDOW);
    NewerIsWithinOrAhead(TakenAt(rs, scope, target), now);
    NewerIsWithinOrAhead(Lost(rs, scope, target), now);
    NewerIsWithinOrAhead(Times(TableOf(rs), scope, target), now);
  }

  /** What was deleted and returns, request by request. */
  lemma {:induction false} LostReturns(rs: seq<TableRequest>, scope: string, target: string, k: nat, now: real)
    requires k <= |rs|
    ensures Newer(LostAmong(rs, scope, target, k), now) == 0
            <==> forall i, j :: i < k ==> !ReturnsAt(rs, scope, target, i, j, now)
  {
    hide Newer, Accepts, Overtaken;
    if k == 0 {
      NewerOfNone(now);
      assert forall i :: i < 0 ==> !Accepts(rs, scope, target, i) by {
        NegativeIsNotAccepted(rs, scope, target);
      }
    } else {
      LostReturns(rs, scope, target, k - 1, now);
      NewerAppend(LostAmong(rs, scope, target, k - 1), rs[k - 1].now, now);
      OvertakenReturns(rs, scope, target, k - 1, now);
    }
  }

  lemma NegativeIsNotAccepted(rs: seq<TableRequest>, scope: string, target: string)
    ensures forall i :: i < 0 ==> !Accepts(rs, scope, target, i)
  {
  }

  lemma OvertakenReturns(rs: seq<TableRequest>, scope: string, target: string, i: nat, now: real)
    requires i < |rs|
    ensures (exists j :: ReturnsAt(rs, scope, target, i, j, now))
            <==> Accepts(rs, scope, target, i) && Overtaken(rs, i) && rs[i].now > now - WINDOW
  {
    hide Accepts;
    assert forall j :: ReturnsAt(rs, scope, target, i, j, now)
                       <==> Overtakes(rs, i, j) && Accepts(rs, scope, target, i) && rs[i].now > now - WINDOW;
  }

  /** The rows count every event that is newer exactly when none that was deleted is. */
  lemma RowsAgainstTaken(rs: seq<TableRequest>, scope: string, target: string, now: real)
    ensures Newer(Times(TableOf(rs), scope, target), now) <= Newer(TakenAt(rs, scope, target), now)
    ensures Newer(Times(TableOf(rs), scope, target), now) == Newer(TakenAt(rs, scope, target), now)
            <==> NoneReturns(rs, scope, target, now)
  {
    hide Newer, Within, Times, TableOf, TakenAt, LostAmong, ReturnsAt;
    TakenIsLostOrKept(rs, scope, target, now);
    LostReturns(rs, scope, target, |rs|, now);
    assert forall i, j :: ReturnsAt(rs, scope, target, i, j, now) ==> i < |rs| by {
      ReturningIsAccepted(rs, scope, target, now);
    }
  }

  lemma ReturningIsAccepted(rs: seq<TableRequest>, scope: string, target: string, now: real)
    ensures forall i, j :: ReturnsAt(rs, scope, target, i, j, now) ==> i < |rs|
  {
  }

  /** The count the table answers by: the events of the last 60 seconds that were not deleted, and those
      stamped after `now`. */
  lemma TableMiscounts(rs: seq<TableRequest>, scope: string, target: string, now: real)
    ensures |Times(DeleteOld(TableOf(rs), now), scope, target)| + Within(Lost(rs, scope, target), now)
            == Within(TakenAt(rs, scope, target), now) + Ahead(Times(TableOf(rs), scope, target), now)
  {
    hide Newer, Within, Ahead, Times, TableOf, TakenAt, LostAmong, DeleteOld, Counted;
    TimesOfDeleted(TableOf(rs), now, scope, target);
    CountedSize(Times(TableOf(rs), scope, target), now);
    TakenIsLostOrKept(rs, scope, target, now);
    NewerIsWithinOrAhead(Times(TableOf(rs), scope, target), now);
  }

  /** The table's answer to a request with this limit is the one the last 60 seconds of its events call for. */
  ghost predicate TableRightFor(rs: seq<TableRequest>, scope: string, target: string, limit: int, now: real) {
    TableAnswer(rs, TableRequest(scope, target, limit, now)) <==> Within(TakenAt(rs, scope, target), now) < limit
  }

  /** Requests of all scopes and targets may commit in any order and read any clock: the table answers a
      request right for every limit exactly when as many events of the last 60 seconds have been deleted
      as rows of its scope and target are stamped after it. */
  lemma TableIsRightExactlyWhenErrorsCancel(rs: seq<TableRequest>, scope: string, target: string, now: real)
    ensures (forall limit: int :: TableRightFor(rs, scope, target, limit, now))
            <==> Within(Lost(rs, scope, target), now) == Ahead(Times(TableOf(rs), scope, target), now)
  {
    hide Newer, Within, Ahead, Times, TableOf, DeleteOld, TakenAt, Lost;
    TableMiscounts(rs, scope, target, now);
    var n, m := |Times(DeleteOld(TableOf(rs), now), scope, target)|, Within(TakenAt(rs, scope, target), now);
    if n != m {
      assert !TableRightFor(rs, scope, target, if n < m then m else n, now);
    }
  }

  // ------------------------------------------------- the limit of the shared table

  ghost predicate OneTableLimit(rs: seq<TableRequest>, scope: string, target: string, limit: nat) {
    forall i :: 0 <= i < |rs| && rs[i].scope == scope && rs[i].target == target ==> rs[i].limit == limit
  }

  /** At each accepted request, every event deleted before is at least `WINDOW - slip` seconds old. */
  ghost predicate DeletedStayOld(rs: seq<TableRequest>, scope: string, target: string, slip: real) {
    forall i :: Accepts(rs, scope, target, i) ==> NoneReturns(rs[..i], scope, target, rs[i].now + slip)
  }

  lemma DeletedStayOldBefore(rs: seq<TableRequest>, scope: string, target: string, slip: real)
    requires rs != [] && DeletedStayOld(rs, scope, target, slip)
    ensures DeletedStayOld(rs[..|rs| - 1], scope, target, slip)
    ensures Accepts(rs, scope, target, |rs| - 1) ==> NoneReturns(rs[..|rs| - 1], scope, target, rs[|rs| - 1].now + slip)
  {
    hide NoneReturns, TableAnswer;
    var before := rs[..|rs| - 1];
    forall i | Accepts(before, scope, target, i)
      ensures NoneReturns(before[..i], scope, target, before[i].now + slip)
    {
      assert before[..i] == rs[..i];
      assert Accepts(rs, scope, target, i);
    }
  }

  /** With one limit for a scope and target, and any clocks and commit order that never bring a deleted
      event back into the last `WINDOW - slip` seconds of an accepted request, no `WINDOW - slip` seconds
      hold more than `limit` events taken for it. */
  lemma {:induction false} TableKeepsTheLimit(rs: seq<TableRequest>, scope: string, target: string, limit: nat, slip: real, t: real)
    requires OneTableLimit(rs, scope, target, limit) && 0.0 <= slip && DeletedStayOld(rs, scope, target, slip)
    ensures InLast(TakenAt(rs, scope, target), WINDOW - slip, t) <= limit
  {
    hide Newer, InLast, TableAnswer, DeletedStayOld, NoneReturns;
    if rs == [] {
      NothingInLast(WINDOW - slip, t);
    } else {
      var before, r := rs[..|rs| - 1], rs[|rs| - 1];
      var taken := TakenAt(before, scope, target);
      DeletedStayOldBefore(rs, scope, target, slip);
      TableKeepsTheLimit(before, scope, target, limit, slip, t);
      assert taken + [] == taken;
      if Accepts(rs, scope, target, |rs| - 1) {
        AcceptedFits(before, r, slip);
        OneMoreFits(taken, r.now, limit, slip, t);
      }
    }
  }

  lemma AcceptedFits(rs: seq<TableRequest>, r: TableRequest, slip: real)
    requires TableAnswer(rs, r) && 0.0 <= slip && NoneReturns(rs, r.scope, r.target, r.now + slip)
    ensures Newer(TakenAt(rs, r.scope, r.target), r.now + slip) < r.limit
  {
    hide Newer, NoneReturns, Times, TableOf, TakenAt, DeleteOld, Counted;
    var rows := Times(TableOf(rs), r.scope, r.target);
    RowsAgainstTaken(rs, r.scope, r.target, r.now + slip);
    LaterNewerAreFewer(rows, r.now, r.now + slip);
    TimesOfDeleted(TableOf(rs), r.now, r.scope, r.target);
    CountedSize(rows, r.now);
  }

  ghost predicate TableSlips(rs: seq<TableRequest>, slip: real) {
    forall i, j :: 0 <= i < j < |rs| ==> rs[i].now - slip <= rs[j].now
  }

  lemma SlipKeepsDeletedOld(rs: seq<TableRequest>, scope: string, target: string, slip: real)
    requires TableSlips(rs, slip)
    ensures DeletedStayOld(rs, scope, target, slip)
  {
    hide TableAnswer;
    forall i | Accepts(rs, scope, target, i)
      ensures NoneReturns(rs[..i], scope, target, rs[i].now + slip)
    {
    }
  }

  /** No run takes more than the limit of a scope and target in any `width` seconds, if no request reads
      a time more than `slip` behind one that committed before it. */
  ghost predicate TableGuarantees(width: real, slip: real) {
    forall rs, scope, target, limit: nat, t :: OneTableLimit(rs, scope, target, limit) && TableSlips(rs, slip) ==>
      InLast(TakenAt(rs, scope, target), width, t) <= limit
  }

  /** Readings that commit up to `slip` seconds late cost the table exactly that much of its window. */
  lemma TableGuaranteesExactly(width: real, slip: real)
    requires 0.0 <= slip && 0.0 < width
    ensures TableGuarantees(width, slip) <==> width <= WINDOW - slip
  {
    hide InLast, TakenAt, DeletedStayOld;
    if width <= WINDOW - slip {
      forall rs, scope, target, limit: nat, t | OneTableLimit(rs, scope, target, limit) && TableSlips(rs, slip)
        ensures InLast(TakenAt(rs, scope, target), width, t) <= limit
      {
        SlipKeepsDeletedOld(rs, scope, target, slip);
        TableKeepsTheLimit(rs, scope, target, limit, slip, t);
        NarrowerHoldsLess(TakenAt(rs, scope, target), width, WINDOW - slip, t);
      }
    } else {
      var c := if slip < WINDOW then WINDOW - slip else 0.0;
      var rs := FourTableRequests("", "", 0.0, WINDOW, c);
      assert OneTableLimit(rs, "", "", 2) && TableSlips(rs, slip);
      LateCommitBreaksTheLimit("", "", 0.0, WINDOW, c, width);
      assert InLast(TakenAt(rs, "", ""), width, c) > 2;
    }
  }

  /** Four requests of one scope and target with limit 2: two at `a`, one at `b`, one at `c`. */
  function FourTableRequests(scope: string, target: string, a: real, b: real, c: real): seq<TableRequest> {
    [TableRequest(scope, target, 2, a), TableRequest(scope, target, 2, a),
     TableRequest(scope, target, 2, b), TableRequest(scope, target, 2, c)]
  }

  /** A request that read the time `c` commits after one that read `b`: with the rows stamped `a` deleted,
      the limit of 2 lets a third event into one window with them. */
  lemma LateCommitBreaksTheLimit(scope: string, target: string, a: real, b: real, c: real, width: real)
    requires a <= b - WINDOW && a <= c < a + width
    ensures var taken := TakenAt(FourTableRequests(scope, target, a, b, c), scope, target);
            taken == [a, a, b, c] && InLast(taken, width, c) >= 3
  {
    hide InLast, TakenAt;
    AllFourAreInserted(scope, target, a, b, c);
    ThreeOfFour(a, b, c, width);
  }

  lemma AllFourAreInserted(scope: string, target: string, a: real, b: real, c: real)
    requires a <= b - WINDOW
    ensures TakenAt(FourTableRequests(scope, target, a, b, c), scope, target) == [a, a, b, c]
  {
    hide Times, Counted, TableOf, TakenAt, TableAnswer, DeleteOld;
    var one := [TableRequest(scope, target, 2, a)];
    var two := one + [TableRequest(scope, target, 2, a)];
    var three := two + [TableRequest(scope, target, 2, b)];
    var four := three + [TableRequest(scope, target, 2, c)];
    assert one[..0] == [] && two[..1] == one && three[..2] == two && four[..3] == three;
    assert four == FourTableRequests(scope, target, a, b, c);
    NothingTaken(scope, target);
    CountedOfTwo(a, a);
    CountedOfTwo(a, b);
    CountedOfTwo(b, c);
    AfterTableRequest(one, scope, target);
    assert [] + [a] == [a];
    assert Times(TableOf(one), scope, target) == [a] && TakenAt(one, scope, target) == [a];
    AfterTableRequest(two, scope, target);
    assert Times(TableOf(two), scope, target) == [a, a] && TakenAt(two, scope, target) == [a, a];
    AfterTableRequest(three, scope, target);
    assert Times(TableOf(three), scope, target) == [b] && TakenAt(three, scope, target) == [a, a, b];
    AfterTableRequest(four, scope, target);
  }

  lemma NothingTaken(scope: string, target: string)
    ensures Times(TableOf([]), scope, target) == [] && TakenAt([], scope, target) == []
  {
  }

  lemma CountedOfTwo(a: real, now: real)
    ensures Counted([], now) == []
    ensures Counted([a], now) == if a > now - WINDOW then [a] else []
    ensures Counted([a, a], now) == if a > now - WINDOW then [a, a] else []
  {
    assert [a, a][..1] == [a] && [a][..0] == [];
  }

  /** One step of rows and events, unfolded. */
  lemma AfterTableRequest(rs: seq<TableRequest>, scope: string, target: string)
    requires rs != [] && rs[|rs| - 1].scope == scope && rs[|rs| - 1].target == target
    ensures var before, r := rs[..|rs| - 1], rs[|rs| - 1];
            var kept := Counted(Times(TableOf(before), scope, target), r.now);
            && Times(TableOf(rs), scope, target) == (if |kept| < r.limit then kept + [r.now] else kept)
            && TakenAt(rs, scope, target)
               == TakenAt(before, scope, target) + if |kept| < r.limit then [r.now] else []
  {
    hide Times, Counted, DeleteOld;
    var before, r := rs[..|rs| - 1], rs[|rs| - 1];
    TimesOfDeleted(TableOf(before), r.now, scope, target);
    TimesAppend(DeleteOld(TableOf(before), r.now), Row(scope, target, r.now), scope, target);
  }

  class EventTable {
    var rows: seq<Row>
    ghost var requests: seq<TableRequest>

    /** The rows are what the requests so far leave. */
    ghost predicate Valid()
      reads this
    {
      rows == TableOf(requests)
    }

    constructor ()
      ensures Valid() && requests == []
    {
      rows, requests := [], [];
    }

    /** `_acquire_persistent`; a transaction that fails changes nothing. The answer goes by the events of
        the last 60 seconds that no request so far deleted, and those stamped after `now`; an accepted
        request adds its event to those of its own scope and target, and nothing else changes in what
        was taken. */
    method Acquire(scope: string, target: string, limit: int, now: real, available: bool) returns (allowed: Option<bool>)
      requires Valid()
      modifies this
      ensures Valid()
      ensures !available ==> allowed == None && rows == old(rows) && requests == old(requests)
      ensures available ==> allowed.Some? && requests == old(requests) + [TableRequest(scope, target, limit, now)]
      ensures available ==>
                (allowed.value <==>
                 Within(TakenAt(old(requests), scope, target), now) - Within(Lost(old(requests), scope, target), now)
                 + Ahead(Times(old(rows), scope, target), now) < limit)
      ensures available ==>
                forall s, t :: TakenAt(requests, s, t)
                               == TakenAt(old(requests), s, t) + if s == scope && t == target && allowed.value then [now] else []
    {
      hide Within, Ahead, Lost;
      if !available {
        return None;
      }
      ghost var before, request := requests, TableRequest(scope, target, limit, now);
      rows := DeleteOld(rows, now);
      requests := requests + [request];
      assert requests[..|before|] == before;
      TableMiscounts(before, scope, target, now);
      if |Times(rows, scope, target)| >= limit {
        return Some(false);
      }
      rows := rows + [Row(scope, target, now)];
      return Some(true);
    }
  }
}
