/** The bridge's conditional update: any number of threads check and set entries under 64
    striped locks, against a server with its own clock and with writers the bridge does not
    control. A label is one server interaction; a label that does not apply changes nothing. */
module BridgeUpdate {
  import JavaText

  // ------------------------------------------------------------- lock stripes

  const STRIPES := 64
  const TWO_32 := 0x1_0000_0000
  const TWO_31 := 0x8000_0000

  /** A Java `int` after overflow. */
  function Wrap(n: int): int {
    (n + TWO_31) % TWO_32 - TWO_31
  }

  /** `String.hashCode` in 32-bit arithmetic, over UTF-16 units. */
  function HashCode(units: seq<nat>): int {
    if units == [] then 0 else Wrap(31 * HashCode(units[..|units| - 1]) + units[|units| - 1])
  }

  /** `updateLock`: `floorMod` of the overflowing combined hash. */
  function Stripe(form: string, entryId: string): int {
    Wrap(31 * HashCode(JavaText.Units(form)) + HashCode(JavaText.Units(entryId))) % STRIPES
  }

  /** The same polynomial on unbounded integers. */
  function Polynomial(units: seq<nat>): nat {
    if units == [] then 0 else 31 * Polynomial(units[..|units| - 1]) + units[|units| - 1]
  }

  /** The wrapped value is the Java `int` that is congruent. */
  lemma WrapIsCongruent(n: int)
    ensures -0x8000_0000 <= Wrap(n) <= 0x7FFF_FFFF
    ensures exists k :: Wrap(n) == n + 0x1_0000_0000 * k
    ensures Wrap(n) % STRIPES == n % STRIPES
  {
    var k := -((n + TWO_31) / TWO_32);
    assert Wrap(n) == n + TWO_32 * k;
    assert TWO_32 * k == STRIPES * (0x400_0000 * k);
    ModAddMultiple(n, 0x400_0000 * k);
  }

  lemma ModAddMultiple(n: int, k: int)
    ensures (n + STRIPES * k) % STRIPES == n % STRIPES
  {
  }

  lemma {:induction false} HashCodeIsCongruent(units: seq<nat>)
    ensures HashCode(units) % STRIPES == Polynomial(units) % STRIPES
  {
    if units != [] {
      var front, c := units[..|units| - 1], units[|units| - 1];
      HashCodeIsCongruent(front);
      WrapIsCongruent(31 * HashCode(front) + c);
      CombineCongruent(HashCode(front), Polynomial(front), c, c);
    }
  }

  lemma CombineCongruent(a: int, b: int, c: int, d: int)
    requires a % STRIPES == b % STRIPES && c % STRIPES == d % STRIPES
    ensures (31 * a + c) % STRIPES == (31 * b + d) % STRIPES
  {
    var i, j := a / STRIPES - b / STRIPES, c / STRIPES - d / STRIPES;
    assert 31 * a + c == 31 * b + d + STRIPES * (31 * i + j);
    ModAddMultiple(31 * b + d, 31 * i + j);
  }

  datatype Key = Key(form: string, entryId: string)

  function LockOf(k: Key): int {
    Stripe(k.form, k.entryId)
  }

  /** However often the hash overflows, the stripe is in range and equals the one unbounded
      arithmetic would select, so it depends on the form and entry alone. */
  lemma StripeIsTheUnboundedHash(key: Key)
    ensures 0 <= LockOf(key) < 64
    ensures LockOf(key) == (31 * Polynomial(JavaText.Units(key.form)) + Polynomial(JavaText.Units(key.entryId))) % 64
  {
    var f, e := JavaText.Units(key.form), JavaText.Units(key.entryId);
    HashCodeIsCongruent(f);
    HashCodeIsCongruent(e);
    WrapIsCongruent(31 * HashCode(f) + HashCode(e));
    CombineCongruent(HashCode(f), Polynomial(f), HashCode(e), Polynomial(e));
  }

  // ------------------------------------------------------------------ machine

  /** Where a thread is in `conditionallyUpdate`; `checked` is the log position of its date check, and
      `serverTime` what it then read from the server. */
  datatype Phase =
    | Entering
    | Locked
    | Matched(checked: nat)
    | Timed(checked: nat, serverTime: int)
    | Succeeded
    | Conflicted

  datatype Thread = Thread(key: Key, precondition: int, phase: Phase)

  datatype Event =
    | Check(key: Key, date: int)
    | Land(thread: nat, key: Key, precondition: int, checked: nat, serverTime: int, stamp: int)
    | Outside(key: Key, stamp: int)

  /** `dates` is the server's modified date of every entry. */
  datatype State = State(
    dates: Key -> int, threads: map<nat, Thread>, locks: map<int, nat>, log: seq<Event>)

  datatype Label =
    | Begin(thread: nat, key: Key, precondition: int)
    | Lock(thread: nat)
    | ReadDate(thread: nat)
    | ReadTime(thread: nat, serverTime: int)
    | SetEntry(thread: nat, stamp: int)
    | Abort(thread: nat)
    | WriteOutside(key: Key, stamp: int)

  function SetPhase(s: State, t: nat, phase: Phase): State
    requires t in s.threads
  {
    s.(threads := s.threads[t := s.threads[t].(phase := phase)])
  }

  /** Leaving the synchronized block. */
  function Leave(s: State, t: nat, phase: Phase): State
    requires t in s.threads
  {
    SetPhase(s, t, phase).(locks := s.locks - {LockOf(s.threads[t].key)})
  }

  function Stamp(s: State, key: Key, stamp: int): Key -> int {
    k => if k == key then stamp else s.dates(k)
  }

  predicate InBlock(t: Thread) {
    t.phase.Locked? || t.phase.Matched? || t.phase.Timed?
  }

  /** `readServerTime` and the correction that keeps the get time after the date it checked. */
  function GetTime(serverTime: int, date: int): int {
    if serverTime <= date then date + 1 else serverTime
  }

  function Step(s: State, l: Label): State {
    match l
    case Begin(t, key, precondition) =>
      if t in s.threads then s else s.(threads := s.threads[t := Thread(key, precondition, Entering)])
    case Lock(t) =>
      if t in s.threads && s.threads[t].phase.Entering? && LockOf(s.threads[t].key) !in s.locks then
        SetPhase(s, t, Locked).(locks := s.locks[LockOf(s.threads[t].key) := t])
      else s
    case ReadDate(t) =>
      if t in s.threads && s.threads[t].phase.Locked? then
        var date := s.dates(s.threads[t].key);
        if date != s.threads[t].precondition then Leave(s, t, Conflicted)
        else SetPhase(s, t, Matched(|s.log|)).(log := s.log + [Check(s.threads[t].key, date)])
      else s
    case ReadTime(t, serverTime) =>
      if t in s.threads && s.threads[t].phase.Matched? then
        SetPhase(s, t, Timed(s.threads[t].phase.checked, serverTime))
      else s
    case SetEntry(t, stamp) =>
      // The server refuses a set when the entry was modified after the get time.
      if t in s.threads && s.threads[t].phase.Timed? then
        var th := s.threads[t];
        if s.dates(th.key) > GetTime(th.phase.serverTime, th.precondition) then Leave(s, t, Conflicted)
        else
          var land := Land(t, th.key, th.precondition, th.phase.checked, th.phase.serverTime, stamp);
          Leave(s, t, Succeeded).(dates := Stamp(s, th.key, stamp), log := s.log + [land])
      else s
    case Abort(t) =>
      if t in s.threads && InBlock(s.threads[t]) then Leave(s, t, Conflicted) else s
    case WriteOutside(key, stamp) =>
      s.(dates := Stamp(s, key, stamp), log := s.log + [Outside(key, stamp)])
  }

  function Initial(dates: Key -> int): State {
    State(dates, map[], map[], [])
  }

  function Run(dates: Key -> int, labels: seq<Label>): State {
    if labels == [] then Initial(dates) else Step(Run(dates, labels[..|labels| - 1]), labels[|labels| - 1])
  }

  // ---------------------------------------------------------------- invariant

  predicate Writes(e: Event, key: Key) {
    (e.Land? || e.Outside?) && e.key == key
  }

  /** The date the server holds for `key` after the events of `log`. */
  function DateAfter(dates: Key -> int, log: seq<Event>, key: Key): int {
    if log == [] then dates(key)
    else if Writes(log[|log| - 1], key) then log[|log| - 1].stamp
    else DateAfter(dates, log[..|log| - 1], key)
  }

  /** No bridge update of `key` landed in the log positions from `from` up to `to`. */
  ghost predicate NoLanding(log: seq<Event>, key: Key, from: int, to: int) {
    forall k :: from <= k < to && 0 <= k < |log| && log[k].Land? ==> log[k].key != key
  }

  /** Position `i` of the log is a check of `key` that read `precondition`, with no landing on `key` since. */
  ghost predicate CheckedAt(dates: Key -> int, log: seq<Event>, key: Key, precondition: int, i: nat, to: int) {
    && i < |log| && i < to
    && log[i] == Check(key, precondition)
    && DateAfter(dates, log[..i], key) == precondition
    && NoLanding(log, key, i, to)
  }

  ghost predicate ThreadOk(dates: Key -> int, s: State, t: nat, th: Thread) {
    && (InBlock(th) ==> LockOf(th.key) in s.locks && s.locks[LockOf(th.key)] == t)
    && (th.phase.Matched? || th.phase.Timed? ==>
          CheckedAt(dates, s.log, th.key, th.precondition, th.phase.checked, |s.log|))
  }

  /** A landed update had its date check, and neither another bridge update nor an outside write
      stamped after its get time came in between: the server time it read, or the second after its
      precondition when that is later. */
  ghost predicate LandingOk(dates: Key -> int, log: seq<Event>, j: int)
    requires 0 <= j < |log| && log[j].Land?
  {
    && CheckedAt(dates, log, log[j].key, log[j].precondition, log[j].checked, j)
    && DateAfter(dates, log[..j], log[j].key) <= if log[j].serverTime > log[j].precondition then log[j].serverTime
                                                 else log[j].precondition + 1
  }

  ghost predicate Inv(dates: Key -> int, s: State) {
    && (forall k: Key :: s.dates(k) == DateAfter(dates, s.log, k))
    && (forall t :: t in s.threads ==> ThreadOk(dates, s, t, s.threads[t]))
    && (forall j :: 0 <= j < |s.log| && s.log[j].Land? ==> LandingOk(dates, s.log, j))
  }

  /** Growing the log by an event that is no landing on `key` keeps what is known about a check. */
  lemma CheckSurvives(dates: Key -> int, log: seq<Event>, e: Event, key: Key, precondition: int, i: nat)
    requires CheckedAt(dates, log, key, precondition, i, |log|)
    requires e.Land? ==> e.key != key
    ensures CheckedAt(dates, log + [e], key, precondition, i, |log| + 1)
  {
    assert (log + [e])[..i] == log[..i];
  }

  lemma LandingsSurvive(dates: Key -> int, log: seq<Event>, e: Event)
    requires forall j :: 0 <= j < |log| && log[j].Land? ==> LandingOk(dates, log, j)
    ensures forall j :: 0 <= j < |log| && (log + [e])[j].Land? ==> LandingOk(dates, log + [e], j)
  {
    forall j | 0 <= j < |log| && (log + [e])[j].Land?
      ensures LandingOk(dates, log + [e], j)
    {
      assert LandingOk(dates, log, j);
      assert (log + [e])[..j] == log[..j];
      assert (log + [e])[..log[j].checked] == log[..log[j].checked];
    }
  }

  /** A step that only moves threads and releases or takes locks. */
  lemma QuietStep(dates: Key -> int, s: State, s': State, t: nat)
    requires Inv(dates, s) && s'.dates == s.dates && s'.log == s.log
    requires t in s'.threads && s'.threads.Keys == s.threads.Keys + {t}
    requires forall u :: u in s.threads && u != t ==>
               s'.threads[u] == s.threads[u] && (InBlock(s.threads[u]) ==> LockKept(s, s', LockOf(s.threads[u].key)))
    requires ThreadOk(dates, s', t, s'.threads[t])
    ensures Inv(dates, s')
  {
    hide DateAfter, LockOf, CheckedAt, LandingOk;
    forall u | u in s'.threads
      ensures ThreadOk(dates, s', u, s'.threads[u])
    {
      if u != t {
        assert ThreadOk(dates, s, u, s.threads[u]);
      }
    }
  }

  ghost predicate LockKept(s: State, s': State, lock: int) {
    lock in s.locks ==> lock in s'.locks && s'.locks[lock] == s.locks[lock]
  }

  /** Two threads in the block hold different locks, hence work on different entries. */
  lemma BlocksAreExclusive(dates: Key -> int, s: State, t: nat, u: nat)
    requires Inv(dates, s) && t in s.threads && u in s.threads && t != u
    requires InBlock(s.threads[t]) && InBlock(s.threads[u])
    ensures LockOf(s.threads[t].key) != LockOf(s.threads[u].key) && s.threads[t].key != s.threads[u].key
  {
    hide DateAfter, LockOf, CheckedAt;
    assert ThreadOk(dates, s, t, s.threads[t]) && ThreadOk(dates, s, u, s.threads[u]);
  }

  lemma LeaveKeepsInv(dates: Key -> int, s: State, t: nat, phase: Phase)
    requires Inv(dates, s) && t in s.threads && InBlock(s.threads[t])
    requires phase == Succeeded || phase == Conflicted
    ensures Inv(dates, Leave(s, t, phase))
  {
    hide DateAfter, LockOf, CheckedAt, LandingOk;
    forall u | u in s.threads && u != t && InBlock(s.threads[u])
      ensures LockOf(s.threads[u].key) != LockOf(s.threads[t].key)
    {
      BlocksAreExclusive(dates, s, t, u);
    }
    QuietStep(dates, s, Leave(s, t, phase), t);
  }

  /** Appending an event and updating the dates to match, when it is no landing on a checked entry. */
  lemma LogKeepsInv(dates: Key -> int, s: State, s': State, e: Event)
    requires Inv(dates, s)
    requires s' == s.(log := s.log + [e], dates := s'.dates)
    requires forall k: Key :: s'.dates(k) == if Writes(e, k) then e.stamp else s.dates(k)
    requires e.Land? ==> LandingOk(dates, s'.log, |s.log|)
    requires forall t :: t in s.threads && InBlock(s.threads[t]) && e.Land? ==> s.threads[t].key != e.key
    ensures Inv(dates, s')
  {
    hide LockOf, LandingOk, CheckedAt;
    assert s'.log[..|s.log|] == s.log;
    LandingsSurvive(dates, s.log, e);
    forall t | t in s'.threads
      ensures ThreadOk(dates, s', t, s'.threads[t])
    {
      var th := s.threads[t];
      assert ThreadOk(dates, s, t, th);
      if th.phase.Matched? || th.phase.Timed? {
        CheckSurvives(dates, s.log, e, th.key, th.precondition, th.phase.checked);
      }
    }
  }

  lemma ReadDateKeepsInv(dates: Key -> int, s: State, t: nat)
    requires Inv(dates, s)
    ensures Inv(dates, Step(s, ReadDate(t)))
  {
    hide LockOf, LandingOk;
    if t in s.threads && s.threads[t].phase.Locked? {
      var th := s.threads[t];
      assert ThreadOk(dates, s, t, th);
      var date := s.dates(th.key);
      if date != th.precondition {
        LeaveKeepsInv(dates, s, t, Conflicted);
      } else {
        var e := Check(th.key, date);
        var s1 := s.(log := s.log + [e]);
        LogKeepsInv(dates, s, s1, e);
        assert s1.log[..|s.log|] == s.log;
        QuietStep(dates, s1, Step(s, ReadDate(t)), t);
      }
    }
  }

  lemma SetEntryKeepsInv(dates: Key -> int, s: State, t: nat, stamp: int)
    requires Inv(dates, s)
    ensures Inv(dates, Step(s, SetEntry(t, stamp)))
  {
    hide LockOf, DateAfter;
    if t in s.threads && s.threads[t].phase.Timed? {
      var th := s.threads[t];
      assert ThreadOk(dates, s, t, th);
      if s.dates(th.key) > GetTime(th.phase.serverTime, th.precondition) {
        LeaveKeepsInv(dates, s, t, Conflicted);
      } else {
        var e := Land(t, th.key, th.precondition, th.phase.checked, th.phase.serverTime, stamp);
        var s1 := Leave(s, t, Succeeded);
        LeaveKeepsInv(dates, s, t, Succeeded);
        var s2 := Step(s, SetEntry(t, stamp));
        assert s2.log[..|s.log|] == s.log;
        assert s2.log[..th.phase.checked] == s.log[..th.phase.checked];
        forall u | u in s1.threads && InBlock(s1.threads[u])
          ensures s1.threads[u].key != e.key
        {
          BlocksAreExclusive(dates, s, t, u);
        }
        LogKeepsInv(dates, s1, s2, e);
      }
    }
  }

  lemma StepKeepsInv(dates: Key -> int, s: State, l: Label)
    requires Inv(dates, s)
    ensures Inv(dates, Step(s, l))
  {
    hide DateAfter, LockOf, CheckedAt, LandingOk;
    match l
    case Begin(t, key, precondition) =>
      if t !in s.threads {
        QuietStep(dates, s, Step(s, l), t);
      }
    case Lock(t) =>
      if t in s.threads && s.threads[t].phase.Entering? && LockOf(s.threads[t].key) !in s.locks {
        QuietStep(dates, s, Step(s, l), t);
      }
    case ReadDate(t) => ReadDateKeepsInv(dates, s, t);
    case ReadTime(t, serverTime) =>
      if t in s.threads && s.threads[t].phase.Matched? {
        assert ThreadOk(dates, s, t, s.threads[t]);
        QuietStep(dates, s, Step(s, l), t);
      }
    case SetEntry(t, stamp) => SetEntryKeepsInv(dates, s, t, stamp);
    case Abort(t) =>
      if t in s.threads && InBlock(s.threads[t]) {
        LeaveKeepsInv(dates, s, t, Conflicted);
      }
    case WriteOutside(key, stamp) =>
      LogKeepsInv(dates, s, Step(s, l), Outside(key, stamp));
  }

  lemma {:induction false} RunKeepsInv(dates: Key -> int, labels: seq<Label>)
    ensures Inv(dates, Run(dates, labels))
  {
    hide DateAfter, LockOf, CheckedAt, LandingOk, Step;
    if labels == [] {
      InitialInv(dates);
    } else {
      RunKeepsInv(dates, labels[..|labels| - 1]);
      StepKeepsInv(dates, Run(dates, labels[..|labels| - 1]), labels[|labels| - 1]);
    }
  }

  lemma InitialInv(dates: Key -> int)
    ensures Inv(dates, Initial(dates))
  {
  }

  // ------------------------------------------------------------- main theorems

  /** Bridge updates of one entry are serialised: every landed update was preceded by its own date
      check, which read its precondition as the server's current date, and no bridge update of the
      entry landed in between. Outside writes in between are missed only if they leave the entry dated
      no later than the server time read after the check, or than the second after the precondition. */
  lemma UpdatesAreSerialised(dates: Key -> int, labels: seq<Label>, j: nat)
    requires var log := Run(dates, labels).log; j < |log| && log[j].Land?
    ensures var log := Run(dates, labels).log;
            var e := log[j];
            && e.checked < j
            && log[e.checked] == Check(e.key, e.precondition)
            && DateAfter(dates, log[..e.checked], e.key) == e.precondition
            && NoLanding(log, e.key, e.checked, j)
            && DateAfter(dates, log[..j], e.key) <= if e.serverTime > e.precondition then e.serverTime else e.precondition + 1
  {
    hide Run, DateAfter;
    RunKeepsInv(dates, labels);
    assert LandingOk(dates, Run(dates, labels).log, j);
  }

  lemma {:induction false} DateComesFromAWrite(dates: Key -> int, log: seq<Event>, key: Key, from: nat)
    requires from < |log| && Writes(log[from], key)
    ensures exists k :: from <= k < |log| && Writes(log[k], key) && log[k].stamp == DateAfter(dates, log, key)
  {
    var last := |log| - 1;
    if !Writes(log[last], key) {
      DateComesFromAWrite(dates, log[..last], key, from);
      var k :| from <= k < last && Writes(log[..last][k], key) && log[..last][k].stamp == DateAfter(dates, log[..last], key);
      assert log[k] == log[..last][k];
    }
  }

  /** Two updates of one entry with the same precondition both land only if the server, at the first
      of them or later, stamped a write of that entry with exactly the date the precondition names. */
  lemma SamePreconditionNeedsAReusedStamp(dates: Key -> int, labels: seq<Label>, i: nat, j: nat)
    requires var log := Run(dates, labels).log;
             i < j < |log| && log[i].Land? && log[j].Land?
             && log[i].key == log[j].key && log[i].precondition == log[j].precondition
    ensures var log := Run(dates, labels).log;
            exists k :: i <= k < j && Writes(log[k], log[i].key) && log[k].stamp == log[i].precondition
  {
    hide Run;
    UpdatesAreSerialised(dates, labels, j);
    var log := Run(dates, labels).log;
    var e := log[j];
    assert i < e.checked;
    var before := log[..e.checked];
    assert before[i] == log[i];
    DateComesFromAWrite(dates, before, e.key, i);
    var k :| i <= k < |before| && Writes(before[k], e.key) && before[k].stamp == DateAfter(dates, before, e.key);
    assert log[k] == before[k];
  }

  /** So the second update cannot succeed while every write is stamped later than that precondition. */
  lemma LaterStampsExcludeASecondUpdate(dates: Key -> int, labels: seq<Label>, i: nat)
    requires var log := Run(dates, labels).log;
             && i < |log| && log[i].Land?
             && forall k :: i <= k < |log| && Writes(log[k], log[i].key) ==> log[k].stamp > log[i].precondition
    ensures var log := Run(dates, labels).log;
            forall j :: i < j < |log| && log[j].Land? && log[j].key == log[i].key ==>
              log[j].precondition != log[i].precondition
  {
    hide Run, DateAfter;
    var log := Run(dates, labels).log;
    forall j | i < j < |log| && log[j].Land? && log[j].key == log[i].key && log[j].precondition == log[i].precondition
      ensures false
    {
      SamePreconditionNeedsAReusedStamp(dates, labels, i, j);
    }
  }

  /** One update from its first to its last interaction. */
  function Update(t: nat, key: Key, precondition: int, serverTime: int, stamp: int): seq<Label> {
    [Begin(t, key, precondition), Lock(t), ReadDate(t), ReadTime(t, serverTime), SetEntry(t, stamp)]
  }

  function Steps(s: State, labels: seq<Label>): State
    decreases |labels|
  {
    if labels == [] then s else Steps(Step(s, labels[0]), labels[1..])
  }

  lemma {:induction false} RunAppend(dates: Key -> int, labels: seq<Label>, more: seq<Label>)
    ensures Run(dates, labels + more) == Steps(Run(dates, labels), more)
    decreases |more|
  {
    hide Step;
    if more == [] {
      assert labels + more == labels;
    } else {
      var first := labels + [more[0]];
      assert first[..|first| - 1] == labels;
      assert labels + more == first + more[1..];
      RunAppend(dates, first, more[1..]);
    }
  }

  /** The label is an interaction of thread `t`. */
  predicate Of(l: Label, t: nat) {
    !l.WriteOutside? && l.thread == t
  }

  ghost predicate NoneOf(labels: seq<Label>, t: nat) {
    forall i :: 0 <= i < |labels| ==> !Of(labels[i], t)
  }

  lemma {:induction false} OthersLeaveThread(s: State, labels: seq<Label>, t: nat)
    requires t in s.threads && NoneOf(labels, t)
    ensures t in Steps(s, labels).threads && Steps(s, labels).threads[t] == s.threads[t]
    decreases |labels|
  {
    hide LockOf;
    if labels != [] {
      assert !Of(labels[0], t);
      OthersLeaveThread(Step(s, labels[0]), labels[1..], t);
    }
  }

  /** A thread that has checked its precondition lands exactly when, at its set, the entry is dated no later
      than the server time it read or than the second after the precondition, whatever others did since. A
      refused set changes nothing at the server. */
  lemma SetLandsExactly(s: State, t: nat, serverTime: int, later: seq<Label>, stamp: int)
    requires t in s.threads && s.threads[t].phase.Matched? && NoneOf(later, t)
    ensures var th := s.threads[t];
            var s1 := Steps(Step(s, ReadTime(t, serverTime)), later);
            var s2 := Step(s1, SetEntry(t, stamp));
            var lands := s1.dates(th.key) <= serverTime || s1.dates(th.key) <= th.precondition + 1;
            && t in s2.threads
            && s2.threads[t] == th.(phase := if lands then Succeeded else Conflicted)
            && s2.locks == s1.locks - {LockOf(th.key)}
            && (if lands then
                  && s2.log == s1.log + [Land(t, th.key, th.precondition, th.phase.checked, serverTime, stamp)]
                  && forall k :: s2.dates(k) == if k == th.key then stamp else s1.dates(k)
                else
                  s2.log == s1.log && s2.dates == s1.dates)
  {
    hide LockOf, Steps;
    OthersLeaveThread(Step(s, ReadTime(t, serverTime)), later, t);
  }

  /** A whole update with any steps of others in between: once it has its lock, it succeeds exactly when its
      check reads the precondition and its set finds the entry dated as above; otherwise it conflicts. */
  lemma UpdateSucceedsExactly(s: State, t: nat, key: Key, p: int, serverTime: int, stamp: int,
                              a: seq<Label>, b: seq<Label>, c: seq<Label>, d: seq<Label>)
    requires t !in s.threads && NoneOf(a, t) && NoneOf(b, t) && NoneOf(c, t) && NoneOf(d, t)
    requires LockOf(key) !in Steps(Step(s, Begin(t, key, p)), a).locks
    ensures var s1 := Steps(Step(s, Begin(t, key, p)), a);
            var s2 := Steps(Step(s1, Lock(t)), b);
            var s3 := Steps(Step(s2, ReadDate(t)), c);
            var s4 := Steps(Step(s3, ReadTime(t, serverTime)), d);
            var s5 := Step(s4, SetEntry(t, stamp));
            var succeeds := s2.dates(key) == p && (s4.dates(key) <= serverTime || s4.dates(key) <= p + 1);
            && t in s5.threads
            && s5.threads[t] == Thread(key, p, if succeeds then Succeeded else Conflicted)
            && (succeeds ==> s5.dates(key) == stamp)
            && (!succeeds ==> s5.dates == s4.dates)
  {
    hide LockOf, Steps;
    var s1 := Steps(Step(s, Begin(t, key, p)), a);
    OthersLeaveThread(Step(s, Begin(t, key, p)), a, t);
    var s2 := Steps(Step(s1, Lock(t)), b);
    OthersLeaveThread(Step(s1, Lock(t)), b, t);
    var s3 := Steps(Step(s2, ReadDate(t)), c);
    OthersLeaveThread(Step(s2, ReadDate(t)), c, t);
    if s2.dates(key) == p {
      SetLandsExactly(s3, t, serverTime, d, stamp);
    } else {
      OthersLeaveThread(Step(s3, ReadTime(t, serverTime)), d, t);
    }
  }

  /** A failure anywhere in the block ends the update as a conflict, with its lock released and nothing set. */
  lemma AbortSetsNothing(s: State, t: nat)
    requires t in s.threads && (s.threads[t].phase.Locked? || s.threads[t].phase.Matched? || s.threads[t].phase.Timed?)
    ensures var s' := Step(s, Abort(t));
            && s' == s.(threads := s.threads[t := s.threads[t].(phase := Conflicted)], locks := s.locks - {LockOf(s.threads[t].key)})
  {
    hide LockOf;
  }

  /** An update ends once: after success or conflict no label changes the thread. */
  lemma OutcomesAreFinal(s: State, l: Label, t: nat)
    requires t in s.threads && (s.threads[t].phase.Succeeded? || s.threads[t].phase.Conflicted?)
    ensures t in Step(s, l).threads && Step(s, l).threads[t] == s.threads[t]
  {
    hide LockOf;
  }

  /** A held lock belongs to a thread inside its block on that stripe, so it is free once the thread has
      left, however it left. */
  ghost predicate LocksAreHeld(s: State) {
    forall l :: l in s.locks ==>
      && s.locks[l] in s.threads && InBlock(s.threads[s.locks[l]]) && LockOf(s.threads[s.locks[l]].key) == l
  }

  lemma {:induction false} LocksAreReleased(dates: Key -> int, labels: seq<Label>)
    ensures LocksAreHeld(Run(dates, labels))
  {
    hide LockOf, Step;
    if labels != [] {
      LocksAreReleased(dates, labels[..|labels| - 1]);
      StepReleasesLock(Run(dates, labels[..|labels| - 1]), labels[|labels| - 1]);
    }
  }

  lemma StepReleasesLock(s: State, l: Label)
    requires LocksAreHeld(s)
    ensures LocksAreHeld(Step(s, l))
  {
    hide LockOf;
  }

  /** An update that finds its lock free, its precondition current and no interference lands. */
  lemma UndisturbedUpdateLands(s: State, t: nat, key: Key, p: int, serverTime: int, stamp: int)
    requires s.dates(key) == p && t !in s.threads && LockOf(key) !in s.locks
    ensures var s' := Steps(s, Update(t, key, p, serverTime, stamp));
            && s'.log == s.log + [Check(key, p), Land(t, key, p, |s.log|, serverTime, stamp)]
            && s'.dates(key) == stamp
            && s'.threads.Keys == s.threads.Keys + {t} && s'.locks == s.locks
  {
    hide LockOf, Steps;
    var u := Update(t, key, p, serverTime, stamp);
    FiveSteps(s, u);
    var s2 := s.(threads := s.threads[t := Thread(key, p, Locked)], locks := s.locks[LockOf(key) := t]);
    EnterBlock(s, t, key, p);
    var s4 := s2.(threads := s.threads[t := Thread(key, p, Timed(|s.log|, serverTime))],
                  log := s.log + [Check(key, p)]);
    assert Step(s2, u[2]).threads[t] == Thread(key, p, Matched(|s.log|));
    assert Step(Step(s2, u[2]), u[3]) == s4;
    assert Step(s4, u[4]).locks == s.locks;
  }

  lemma EnterBlock(s: State, t: nat, key: Key, p: int)
    requires t !in s.threads && LockOf(key) !in s.locks
    ensures Step(Step(s, Begin(t, key, p)), Lock(t)) ==
            s.(threads := s.threads[t := Thread(key, p, Locked)], locks := s.locks[LockOf(key) := t])
  {
    hide LockOf;
  }

  lemma FiveSteps(s: State, u: seq<Label>)
    requires |u| == 5
    ensures Steps(s, u) == Step(Step(Step(Step(Step(s, u[0]), u[1]), u[2]), u[3]), u[4])
  {
    hide Step;
    var s1 := Step(s, u[0]);
    assert Steps(s, u) == Steps(s1, u[1..]);
    var s2 := Step(s1, u[1]);
    assert Steps(s1, u[1..]) == Steps(s2, u[2..]) by { assert u[1..][1..] == u[2..]; }
    var s3 := Step(s2, u[2]);
    assert Steps(s2, u[2..]) == Steps(s3, u[3..]) by { assert u[2..][1..] == u[3..]; }
    var s4 := Step(s3, u[3]);
    assert Steps(s3, u[3..]) == Steps(s4, u[4..]) by { assert u[3..][1..] == u[4..]; }
    assert Steps(s4, u[4..]) == Step(s4, u[4]) by { assert u[4..] == [u[4]] && u[4..][1..] == []; }
  }

  /** The condition is needed: when the server stamps the first update with the very date it was based
      on, as a clock of whole seconds may, a second update with the same precondition also lands. */
  lemma SameSecondLosesAnUpdate(dates: Key -> int, key: Key)
    ensures var p := dates(key);
            var labels := Update(0, key, p, p, p) + Update(1, key, p, p, p);
            var log := Run(dates, labels).log;
            |log| == 4 && log[1].Land? && log[3].Land? && log[1].key == log[3].key == key
            && log[1].precondition == log[3].precondition == p
  {
    hide LockOf, Steps, Update, Step;
    var p := dates(key);
    var first, second := Update(0, key, p, p, p), Update(1, key, p, p, p);
    assert [] + first == first;
    RunAppend(dates, [], first);
    UndisturbedUpdateLands(Initial(dates), 0, key, p, p, p);
    RunAppend(dates, first, second);
    UndisturbedUpdateLands(Run(dates, first), 1, key, p, p, p);
  }
}
