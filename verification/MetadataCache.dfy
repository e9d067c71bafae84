/** The metadata caches of the form services: bounded, expiring, and filled under a lock with a
    second look before loading. The field cache and the form-name cache differ only in their keys. */
module MetadataCache {
  import opened Common

  const MAX_ENTRIES := 256

  type Key = string
  type Metadata = seq<string>

  datatype Item = Item(expiresAt: real, value: Metadata)

  type Cache = map<Key, Item>

  /** `_cached_field_metadata` and `_cached_names`: an expired entry is dropped by the lookup. */
  function Lookup(c: Cache, key: Key, now: real): (Cache, Option<Metadata>) {
    if key !in c then (c, None)
    else if c[key].expiresAt <= now then (c - {key}, None)
    else (c, Some(c[key].value))
  }

  /** An entry that expires no later than any other. */
  ghost predicate Oldest(c: Cache, key: Key) {
    key in c && forall k :: k in c ==> c[key].expiresAt <= c[k].expiresAt
  }

  /** Storing a loaded value, dropping `victim` first when the cache is full. */
  function Insert(c: Cache, key: Key, item: Item, victim: Key): Cache {
    (if |c| >= MAX_ENTRIES then c - {victim} else c)[key := item]
  }

  ghost predicate Evicts(c: Cache, victim: Key) {
    |c| >= MAX_ENTRIES ==> Oldest(c, victim)
  }

  ghost predicate Stored(c: Cache, key: Key, item: Item, after: Cache) {
    exists victim {:trigger Evicts(c, victim)} :: Evicts(c, victim) && after == Insert(c, key, item, victim)
  }

  datatype Load = Load(key: Key, value: Metadata, finishedAt: real)

  class MetadataStore {
    const ttl: real
    var entries: Cache

    /** The last load stored under each key, evicted since or not. */
    ghost var stored: map<Key, Load>

    /** Every entry is its last load, and expires a time-to-live after it. */
    ghost predicate Valid()
      reads this
    {
      && |entries| <= MAX_ENTRIES
      && forall key :: key in entries ==>
           key in stored && entries[key] == Item(stored[key].finishedAt + ttl, stored[key].value)
    }

    constructor (ttl: real)
      ensures Valid() && entries == map[] && this.ttl == ttl
    {
      this.ttl, entries, stored := ttl, map[], map[];
    }

    /** A hit changes nothing and is the last load of its key, less than a time-to-live old. A miss means
        that the key has no entry, and it loses one only when that entry's time is over. */
    method Cached(key: Key, now: real) returns (r: Option<Metadata>)
      requires Valid()
      modifies this`entries
      ensures Valid()
      ensures r.Some? ==> entries == old(entries) && key in stored
                          && r.value == stored[key].value && now < stored[key].finishedAt + ttl
      ensures r.None? ==> key !in entries && (key in old(entries) ==> stored[key].finishedAt + ttl <= now)
      ensures forall k :: k in old(entries) && k != key ==> k in entries && entries[k] == old(entries)[k]
      ensures (entries, r) == Lookup(old(entries), key, now)
    {
      LookupShrinks(entries, key, now);
      if key !in entries {
        return None;
      }
      var item := entries[key];
      if item.expiresAt <= now {
        entries := entries - {key};
        return None;
      }
      return Some(item.value);
    }

    /** `min(cache, key=...)` */
    method FindOldest() returns (key: Key)
      requires entries != map[]
      ensures Oldest(entries, key)
    {
      assert exists k :: k in entries;
      key :| key in entries;
      var rest := entries.Keys - {key};
      while rest != {}
        invariant key in entries && rest <= entries.Keys
        invariant forall k :: k in entries && k !in rest ==> entries[key].expiresAt <= entries[k].expiresAt
      {
        var k :| k in rest;
        if entries[k].expiresAt < entries[key].expiresAt {
          key := k;
        }
        rest := rest - {k};
      }
    }

    /** What follows a load: evict one entry when full, then store with a new expiry. */
    method Store(key: Key, value: Metadata, now: real)
      requires Valid()
      modifies this
      ensures Valid()
      ensures stored == old(stored)[key := Load(key, value, now)]
      ensures Stored(old(entries), key, Item(now + ttl, value), entries)
    {
      ghost var before := entries;
      ghost var victim := key;
      if |entries| >= MAX_ENTRIES {
        assert entries != map[] by {
          assert |entries| > 0;
        }
        var oldest := FindOldest();
        victim := oldest;
        entries := entries - {oldest};
      }
      InsertIsBounded(before, key, Item(now + ttl, value), victim);
      entries := entries[key := Item(now + ttl, value)];
      stored := stored[key := Load(key, value, now)];
      assert Evicts(before, victim);
      assert entries == Insert(before, key, Item(now + ttl, value), victim);
    }
  }

  // ------------------------------------------------------------------ machine

  /** A request waits for the lock, or is loading; `direct` loads bypass a cache that is switched off. */
  datatype Task = Waiting(key: Key) | Loading(key: Key) | Direct(key: Key)

  /** An answer, the load it came from, and when it was given; `loadedNow` when this request loaded it. */
  datatype Answer = Answer(key: Key, value: Metadata, load: nat, answeredAt: real, loadedNow: bool)

  datatype State = State(
    cache: Cache, source: map<Key, nat>, holder: Option<nat>, tasks: map<nat, Task>, loads: seq<Load>, answers: seq<Answer>)

  datatype Label =
    | Ask(task: nat, key: Key, now: real)
    | EnterLock(task: nat, now: real)
    | LoadReturns(task: nat, value: Metadata, now: real, victim: Key)
    | LoadFails(task: nat)

  /** `source` is history: the load each cached entry was stored by. */
  function Served(s: State, key: Key, now: real, value: Metadata): State {
    s.(answers := s.answers + [Answer(key, value, if key in s.source then s.source[key] else 0, now, false)])
  }

  /** A finished load answers its own request. */
  function Answered(s: State, t: nat, value: Metadata, now: real): State
    requires t in s.tasks
  {
    var key := s.tasks[t].key;
    s.(tasks := s.tasks - {t}, loads := s.loads + [Load(key, value, now)],
       answers := s.answers + [Answer(key, value, |s.loads|, now, true)])
  }

  /** The last load is stored and the lock released. */
  function Filled(s: State, key: Key, item: Item, victim: Key): State
    requires s.loads != []
  {
    s.(holder := None, cache := Insert(s.cache, key, item, victim), source := s.source[key := |s.loads| - 1])
  }

  function Asked(ttl: real, s: State, t: nat, key: Key, now: real): State {
    if t in s.tasks then s
    else if ttl == 0.0 then s.(tasks := s.tasks[t := Direct(key)])
    else
      var (cache, hit) := Lookup(s.cache, key, now);
      if hit.Some? then Served(s, key, now, hit.value)
      else s.(cache := cache, tasks := s.tasks[t := Waiting(key)])
  }

  /** The second look, made by the one request that holds the lock. */
  function Entered(s: State, t: nat, now: real): State {
    if t !in s.tasks || !s.tasks[t].Waiting? || s.holder.Some? then s
    else
      var key := s.tasks[t].key;
      var (cache, hit) := Lookup(s.cache, key, now);
      if hit.Some? then Served(s.(tasks := s.tasks - {t}), key, now, hit.value)
      else s.(cache := cache, holder := Some(t), tasks := s.tasks[t := Loading(key)])
  }

  ghost function Returned(ttl: real, s: State, t: nat, value: Metadata, now: real, victim: Key): State {
    if t !in s.tasks || s.tasks[t].Waiting? || !Evicts(s.cache, victim) then s
    else if s.tasks[t].Direct? then Answered(s, t, value, now)
    else Filled(Answered(s, t, value, now), s.tasks[t].key, Item(now + ttl, value), victim)
  }

  ghost function Step(ttl: real, s: State, l: Label): State {
    match l
    case Ask(t, key, now) => Asked(ttl, s, t, key, now)
    case EnterLock(t, now) => Entered(s, t, now)
    case LoadReturns(t, value, now, victim) => Returned(ttl, s, t, value, now, victim)
    case LoadFails(t) =>
      // Also a cancelled request: the lock is released on the way out.
      if t !in s.tasks then s
      else s.(tasks := s.tasks - {t}, holder := if s.holder == Some(t) then None else s.holder)
  }

  function Initial(): State {
    State(map[], map[], None, map[], [], [])
  }

  ghost function Run(ttl: real, labels: seq<Label>): State {
    if labels == [] then Initial() else Step(ttl, Run(ttl, labels[..|labels| - 1]), labels[|labels| - 1])
  }

  // ---------------------------------------------------------------- invariant

  ghost predicate EntryOk(ttl: real, s: State, key: Key) {
    && key in s.cache && key in s.source && s.source[key] < |s.loads|
    && var load := s.loads[s.source[key]];
       load.key == key && s.cache[key] == Item(load.finishedAt + ttl, load.value)
  }

  ghost predicate AnswerOk(ttl: real, loads: seq<Load>, a: Answer) {
    && a.load < |loads|
    && var load := loads[a.load];
       && load.key == a.key && load.value == a.value
       && if a.loadedNow then a.answeredAt == load.finishedAt else a.answeredAt < load.finishedAt + ttl
  }

  ghost predicate EntriesOk(ttl: real, s: State) {
    forall key :: key in s.cache ==> EntryOk(ttl, s, key)
  }

  ghost predicate AnswersOk(ttl: real, s: State) {
    forall k :: 0 <= k < |s.answers| ==> AnswerOk(ttl, s.loads, s.answers[k])
  }

  /** A request that loads holds the lock, and its key has no entry. */
  ghost predicate LockOk(s: State) {
    forall t :: t in s.tasks && s.tasks[t].Loading? ==> s.holder == Some(t) && s.tasks[t].key !in s.cache
  }

  ghost predicate Inv(ttl: real, s: State) {
    |s.cache| <= MAX_ENTRIES && EntriesOk(ttl, s) && LockOk(s) && AnswersOk(ttl, s)
  }

  predicate Within(c: Cache, d: Cache) {
    forall k :: k in c ==> k in d && c[k] == d[k]
  }

  lemma LookupShrinks(c: Cache, key: Key, now: real)
    ensures |Lookup(c, key, now).0| <= |c| && Within(Lookup(c, key, now).0, c)
    ensures Lookup(c, key, now).1.None? ==> key !in Lookup(c, key, now).0
    ensures Lookup(c, key, now).1.Some? ==> Lookup(c, key, now).0 == c
  {
    if key in c {
      assert (c - {key}).Keys == c.Keys - {key};
    }
  }

  lemma InsertIsBounded(c: Cache, key: Key, item: Item, victim: Key)
    requires |c| <= MAX_ENTRIES && Evicts(c, victim)
    ensures |Insert(c, key, item, victim)| <= MAX_ENTRIES
  {
    var kept := if |c| >= MAX_ENTRIES then c - {victim} else c;
    if |c| >= MAX_ENTRIES {
      assert kept.Keys == c.Keys - {victim};
    }
    assert |kept.Keys| < MAX_ENTRIES;
    assert kept[key := item].Keys == kept.Keys + {key};
  }

  lemma AnsweredKeepsInv(ttl: real, s: State, t: nat, value: Metadata, now: real)
    requires Inv(ttl, s) && t in s.tasks
    ensures Inv(ttl, Answered(s, t, value, now))
  {
    var s' := Answered(s, t, value, now);
    assert s'.loads[..|s.loads|] == s.loads;
    forall k | 0 <= k < |s'.answers|
      ensures AnswerOk(ttl, s'.loads, s'.answers[k])
    {
      if k < |s.answers| {
        assert AnswerOk(ttl, s.loads, s.answers[k]);
      }
    }
    forall k | k in s'.cache
      ensures EntryOk(ttl, s', k)
    {
      assert EntryOk(ttl, s, k);
    }
  }

  lemma FilledKeepsInv(ttl: real, s: State, key: Key, item: Item, victim: Key)
    requires Inv(ttl, s) && Evicts(s.cache, victim)
    requires forall t :: t in s.tasks ==> !s.tasks[t].Loading?
    requires s.loads != []
    requires var load := s.loads[|s.loads| - 1];
             load.key == key && item == Item(load.finishedAt + ttl, load.value)
    ensures Inv(ttl, Filled(s, key, item, victim))
  {
    var s' := Filled(s, key, item, victim);
    InsertIsBounded(s.cache, key, item, victim);
    forall k | k in s'.cache
      ensures EntryOk(ttl, s', k)
    {
      if k != key {
        assert EntryOk(ttl, s, k);
      }
    }
  }

  lemma ReturnedKeepsInv(ttl: real, s: State, t: nat, value: Metadata, now: real, victim: Key)
    requires Inv(ttl, s)
    ensures Inv(ttl, Returned(ttl, s, t, value, now, victim))
  {
    hide EntriesOk, AnswersOk, Insert, Oldest, Lookup;
    if t in s.tasks && !s.tasks[t].Waiting? && Evicts(s.cache, victim) {
      var s1 := Answered(s, t, value, now);
      AnsweredKeepsInv(ttl, s, t, value, now);
      if s.tasks[t].Loading? {
        var load := Load(s.tasks[t].key, value, now);
        assert s1.loads == s.loads + [load];
        assert s1.loads[|s1.loads| - 1] == load;
        assert forall u :: u in s1.tasks ==> u in s.tasks && s1.tasks[u] == s.tasks[u] && u != t;
        FilledKeepsInv(ttl, s1, s.tasks[t].key, Item(now + ttl, value), victim);
      }
    }
  }

  ghost predicate OneMoreAnswer(ttl: real, s: State, answers: seq<Answer>) {
    answers != [] && answers[..|answers| - 1] == s.answers && AnswerOk(ttl, s.loads, answers[|answers| - 1])
  }

  /** A step that loads nothing: the cache only shrinks, and at most one answer is added. */
  lemma QuietStepKeepsInv(ttl: real, s: State, s': State)
    requires Inv(ttl, s)
    requires s'.loads == s.loads && s'.source == s.source
    requires |s'.cache| <= |s.cache| && Within(s'.cache, s.cache)
    requires LockOk(s')
    requires s'.answers == s.answers || OneMoreAnswer(ttl, s, s'.answers)
    ensures Inv(ttl, s')
  {
    forall k | k in s'.cache
      ensures EntryOk(ttl, s', k)
    {
      assert EntryOk(ttl, s, k);
    }
    forall k | 0 <= k < |s'.answers|
      ensures AnswerOk(ttl, s'.loads, s'.answers[k])
    {
      if k < |s.answers| {
        assert s'.answers[k] == s.answers[k];
      }
    }
  }

  lemma ServedIsHonest(ttl: real, s: State, key: Key, now: real)
    requires Inv(ttl, s) && Lookup(s.cache, key, now).1.Some?
    ensures OneMoreAnswer(ttl, s, Served(s, key, now, Lookup(s.cache, key, now).1.value).answers)
  {
    assert EntryOk(ttl, s, key);
  }

  lemma AskedKeepsInv(ttl: real, s: State, t: nat, key: Key, now: real)
    requires Inv(ttl, s)
    ensures Inv(ttl, Asked(ttl, s, t, key, now))
  {
    hide EntriesOk, AnswersOk, OneMoreAnswer, Lookup, Within;
    LookupShrinks(s.cache, key, now);
    if Lookup(s.cache, key, now).1.Some? {
      ServedIsHonest(ttl, s, key, now);
    }
    QuietStepKeepsInv(ttl, s, Asked(ttl, s, t, key, now));
  }

  lemma EnteredKeepsInv(ttl: real, s: State, t: nat, now: real)
    requires Inv(ttl, s)
    ensures Inv(ttl, Entered(s, t, now))
  {
    hide EntriesOk, AnswersOk, OneMoreAnswer, Lookup, Within;
    var s' := Entered(s, t, now);
    if s' != s {
      var key := s.tasks[t].key;
      LookupShrinks(s.cache, key, now);
      if Lookup(s.cache, key, now).1.Some? {
        ServedIsHonest(ttl, s, key, now);
      }
      QuietStepKeepsInv(ttl, s, s');
    }
  }

  lemma StepKeepsInv(ttl: real, s: State, l: Label)
    requires Inv(ttl, s)
    ensures Inv(ttl, Step(ttl, s, l))
  {
    hide EntriesOk, AnswersOk, OneMoreAnswer, Asked, Entered, Returned;
    match l
    case Ask(t, key, now) => AskedKeepsInv(ttl, s, t, key, now);
    case EnterLock(t, now) => EnteredKeepsInv(ttl, s, t, now);
    case LoadReturns(t, value, now, victim) => ReturnedKeepsInv(ttl, s, t, value, now, victim);
    case LoadFails(_) => QuietStepKeepsInv(ttl, s, Step(ttl, s, l));
  }

  lemma {:induction false} RunKeepsInv(ttl: real, labels: seq<Label>)
    ensures Inv(ttl, Run(ttl, labels))
  {
    hide Step;
    if labels != [] {
      RunKeepsInv(ttl, labels[..|labels| - 1]);
      StepKeepsInv(ttl, Run(ttl, labels[..|labels| - 1]), labels[|labels| - 1]);
    }
  }

  // ------------------------------------------------------------- main theorems

  /** In every run, each answer is the value of a load of that same key, which this request made
      itself or which finished less than the time-to-live before; the clock may move in any way. */
  lemma AnswersAreRecentLoads(ttl: real, labels: seq<Label>, k: nat)
    requires k < |Run(ttl, labels).answers|
    ensures var s := Run(ttl, labels);
            var a := s.answers[k];
            && a.load < |s.loads|
            && s.loads[a.load].key == a.key && s.loads[a.load].value == a.value
            && (a.loadedNow || a.answeredAt < s.loads[a.load].finishedAt + ttl)
  {
    hide Run;
    RunKeepsInv(ttl, labels);
    assert AnswerOk(ttl, Run(ttl, labels).loads, Run(ttl, labels).answers[k]);
  }

  ghost predicate HolderLoads(s: State) {
    s.holder.Some? ==> s.holder.value in s.tasks && s.tasks[s.holder.value].Loading?
  }

  lemma {:induction false} LockIsReleased(ttl: real, labels: seq<Label>)
    ensures HolderLoads(Run(ttl, labels))
  {
    if labels != [] {
      LockIsReleased(ttl, labels[..|labels| - 1]);
    }
  }

  /** The cache never holds more than 256 entries, and the lock is held exactly while one request loads:
      it is free again as soon as that load has returned, failed or was cancelled. */
  lemma CacheStaysBounded(ttl: real, labels: seq<Label>, t: nat)
    ensures var s := Run(ttl, labels);
            && |s.cache| <= 256
            && (s.holder == Some(t) <==> t in s.tasks && s.tasks[t].Loading?)
  {
    hide Run;
    RunKeepsInv(ttl, labels);
    LockIsReleased(ttl, labels);
  }

  /** A request for a key with a live entry is answered from it at once, and nothing else changes. Any other
      waits for the lock, unless caching is off, and only an entry that is over is dropped. */
  lemma AskingAnswersOrWaits(ttl: real, s: State, t: nat, key: Key, now: real)
    requires t !in s.tasks
    ensures var s' := Step(ttl, s, Ask(t, key, now));
            var live := key in s.cache && now < s.cache[key].expiresAt;
            && (ttl == 0.0 ==> s' == s.(tasks := s.tasks[t := Direct(key)]))
            && (ttl != 0.0 && live ==>
                  && s' == s.(answers := s'.answers) && |s'.answers| == |s.answers| + 1 && s'.answers[..|s.answers|] == s.answers
                  && var a := s'.answers[|s.answers|];
                     a.key == key && a.value == s.cache[key].value && a.answeredAt == now && !a.loadedNow)
            && (ttl != 0.0 && !live ==>
                  s' == s.(cache := s.cache - {key}, tasks := s.tasks[t := Waiting(key)]))
  {
    if key !in s.cache {
      assert s.cache - {key} == s.cache;
    }
  }

  /** A waiting request that gets the lock looks again: it is answered from an entry stored meanwhile, or it
      keeps the lock and loads. */
  lemma EnteringLooksAgain(ttl: real, s: State, t: nat, now: real)
    requires t in s.tasks && s.tasks[t].Waiting? && s.holder.None?
    ensures var key := s.tasks[t].key;
            var s' := Step(ttl, s, EnterLock(t, now));
            var live := key in s.cache && now < s.cache[key].expiresAt;
            && (live ==>
                  && s' == s.(answers := s'.answers, tasks := s.tasks - {t})
                  && |s'.answers| == |s.answers| + 1 && s'.answers[|s.answers|].value == s.cache[key].value)
            && (!live ==>
                  s' == s.(cache := s.cache - {key}, holder := Some(t), tasks := s.tasks[t := Loading(key)]))
  {
    if s.tasks[t].key !in s.cache {
      assert s.cache - {s.tasks[t].key} == s.cache;
    }
  }

  /** Storing evicts exactly one entry if there are 256, and keeps the others. */
  lemma InsertEvictsOne(c: Cache, key: Key, item: Item, victim: Key)
    ensures var d := Insert(c, key, item, victim);
            && key in d && d[key] == item
            && d.Keys == (if |c| >= 256 then c.Keys - {victim} else c.Keys) + {key}
            && forall k :: k in d && k != key ==> d[k] == c[k]
  {
  }

  /** A load that returns answers its own request, and under the lock it is stored with its expiry: one entry
      that expires first goes if there are 256, and the others stay. */
  lemma LoadingEnds(ttl: real, s: State, t: nat, value: Metadata, now: real, victim: Key)
    requires t in s.tasks && !s.tasks[t].Waiting? && Evicts(s.cache, victim)
    ensures var key := s.tasks[t].key;
            var s' := Step(ttl, s, LoadReturns(t, value, now, victim));
            && t !in s'.tasks && |s'.answers| == |s.answers| + 1 && s'.answers[|s.answers|] == Answer(key, value, |s.loads|, now, true)
            && (s.tasks[t].Direct? ==> s'.cache == s.cache && s'.holder == s.holder)
            && (s.tasks[t].Loading? ==>
                  && s'.holder == None
                  && key in s'.cache && s'.cache[key] == Item(now + ttl, value)
                  && s'.cache.Keys == (if |s.cache| >= 256 then s.cache.Keys - {victim} else s.cache.Keys) + {key}
                  && forall k :: k in s'.cache && k != key ==> s'.cache[k] == s.cache[k])
  {
    hide Insert, Evicts;
    InsertEvictsOne(s.cache, s.tasks[t].key, Item(now + ttl, value), victim);
  }

  /** A load that fails, or a request that is cancelled, leaves the cache alone and gives the lock back. */
  lemma FailingFreesTheLock(ttl: real, s: State, t: nat)
    requires HolderLoads(s) && LockOk(s) && t in s.tasks
    ensures Step(ttl, s, LoadFails(t)) == s.(tasks := s.tasks - {t}, holder := if s.tasks[t].Loading? then None else s.holder)
  {
  }

  /** A locked load starts only for a key without a live entry, and no other request can put one
      there before it finishes. */
  lemma LoadsAreNeeded(ttl: real, labels: seq<Label>, l: Label, t: nat)
    requires var s := Run(ttl, labels);
             var s' := Step(ttl, s, l);
             t in s'.tasks && s'.tasks[t].Loading?
    ensures var s := Run(ttl, labels);
            var s' := Step(ttl, s, l);
            && s'.tasks[t].key !in s'.cache
            && (t in s.tasks && s.tasks[t].Waiting? ==>
                  l == EnterLock(t, l.now) && Lookup(s.cache, s.tasks[t].key, l.now).1.None?)
  {
    hide Run;
    RunKeepsInv(ttl, labels);
    StepKeepsInv(ttl, Run(ttl, labels), l);
  }
}
