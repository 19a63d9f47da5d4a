/** The cache of recall results: a time to live per entry, at most 1000 entries, oldest first out
    (`buildCacheKey`, `getCachedResult`, `setCachedResult`, `sweepExpiredCacheEntries` in
    extensions/active-memory/index.ts). */
module RecallCacheSpec {
  import opened Wrappers

  const DEFAULT_MAX_CACHE_ENTRIES := 1000
  const CACHE_SWEEP_INTERVAL_MS := 1000

  /** A recall result; the cache never looks into it. */
  datatype Result = Result(summary: string)

  datatype Entry = Entry(key: string, expiresAt: int, result: Result)

  /** The cache: a JavaScript map, that is, entries in insertion order, and the last sweep. */
  datatype State = State(entries: seq<Entry>, lastSweepAt: int)

  datatype Op = Get(key: string, now: int) | Set(key: string, result: Result, ttlMs: int, now: int)

  function BuildCacheKey(agentId: string, session: string, hash: string): (key: string)
    ensures key != ""
  {
    agentId + ":" + session + ":" + hash
  }

  /** All hashes have the same length.  For agent identifiers without a colon, different questions
      therefore have different keys, whatever is in the session keys. */
  lemma CacheKeyIsInjective(agentId: string, session: string, hash: string,
                            agentId': string, session': string, hash': string)
    requires ':' !in agentId && ':' !in agentId' && |hash| == |hash'|
    ensures BuildCacheKey(agentId, session, hash) == BuildCacheKey(agentId', session', hash') <==>
            agentId == agentId' && session == session' && hash == hash'
  {
    KeyParts(agentId, session, hash);
    KeyParts(agentId', session', hash');
    FirstColon(agentId, BuildCacheKey(agentId, session, hash));
    FirstColon(agentId', BuildCacheKey(agentId', session', hash'));
  }

  lemma FirstColon(head: string, key: string)
    requires ':' !in head && |head| < |key| && key[..|head|] == head && key[|head|] == ':'
    ensures forall i :: 0 <= i < |head| ==> key[i] != ':'
  {
    assert forall i :: 0 <= i < |head| ==> key[i] == head[i];
  }

  lemma KeyParts(agentId: string, session: string, hash: string)
    ensures var key := BuildCacheKey(agentId, session, hash);
            && |agentId| + 2 + |hash| <= |key| && key[..|agentId|] == agentId && key[|agentId|] == ':'
            && key[|agentId| + 1..|key| - |hash| - 1] == session && key[|key| - |hash|..] == hash
  {
  }

  function Find(entries: seq<Entry>, key: string): Option<Entry> {
    if entries == [] then None else if entries[0].key == key then Some(entries[0]) else Find(entries[1..], key)
  }

  function Remove(entries: seq<Entry>, key: string): seq<Entry> {
    if entries == [] then []
    else if entries[0].key == key then Remove(entries[1..], key)
    else [entries[0]] + Remove(entries[1..], key)
  }

  function Sweep(entries: seq<Entry>, now: int): seq<Entry> {
    if entries == [] then []
    else if entries[0].expiresAt <= now then Sweep(entries[1..], now)
    else [entries[0]] + Sweep(entries[1..], now)
  }

  /** The eviction loop: drop the oldest entry while there are too many.  It gives up when the
      oldest key is the empty string, which it takes for "no key". */
  function Evict(entries: seq<Entry>): seq<Entry> {
    if |entries| <= DEFAULT_MAX_CACHE_ENTRIES || entries[0].key == "" then entries else Evict(entries[1..])
  }

  function StepGet(s: State, key: string, now: int): State {
    var cached := Find(s.entries, key);
    if cached.Some? && cached.value.expiresAt <= now then s.(entries := Remove(s.entries, key)) else s
  }

  function Lookup(s: State, key: string, now: int): Option<Result> {
    var cached := Find(s.entries, key);
    if cached.Some? && cached.value.expiresAt > now then Some(cached.value.result) else None
  }

  predicate SweepDue(s: State, now: int) {
    |s.entries| >= DEFAULT_MAX_CACHE_ENTRIES || now - s.lastSweepAt >= CACHE_SWEEP_INTERVAL_MS
  }

  function Swept(s: State, now: int): seq<Entry> {
    if SweepDue(s, now) then Sweep(s.entries, now) else s.entries
  }

  function PutLast(entries: seq<Entry>, op: Op): seq<Entry>
    requires op.Set?
  {
    Remove(entries, op.key) + [Entry(op.key, op.now + op.ttlMs, op.result)]
  }

  function StepSet(s: State, op: Op): State
    requires op.Set?
  {
    State(Evict(PutLast(Swept(s, op.now), op)), if SweepDue(s, op.now) then op.now else s.lastSweepAt)
  }

  function Step(s: State, op: Op): State {
    match op
    case Get(key, now) => StepGet(s, key, now)
    case Set(_, _, _, _) => StepSet(s, op)
  }

  /** The cache after a history of operations. */
  function After(ops: seq<Op>): State {
    if ops == [] then State([], 0) else Step(After(ops[..|ops| - 1]), ops[|ops| - 1])
  }

  // ----- the unbounded map that the cache stands for

  /** The position of the last `Set` of a key, or -1. */
  function LatestSet(ops: seq<Op>, key: string): (i: int)
    ensures -1 <= i < |ops|
    ensures 0 <= i ==> ops[i].Set? && ops[i].key == key
  {
    if ops == [] then -1
    else if ops[|ops| - 1].Set? && ops[|ops| - 1].key == key then |ops| - 1
    else LatestSet(ops[..|ops| - 1], key)
  }

  /** The keys set after position `i`. */
  function SetAfter(ops: seq<Op>, i: int): set<string>
    requires -1 <= i < |ops|
  {
    set j | i < j < |ops| && ops[j].Set? :: ops[j].key
  }

  /** Whether the latest value of a key is out of date at a time. */
  predicate Expired(ops: seq<Op>, i: int, now: int)
    requires 0 <= i < |ops| && ops[i].Set?
  {
    ops[i].now + ops[i].ttlMs <= now
  }

  /** Whether the value set at position `i` was out of date at the time of some later operation. */
  predicate Lapsed(ops: seq<Op>, i: int)
    requires 0 <= i < |ops| && ops[i].Set?
  {
    exists j :: i < j < |ops| && Expired(ops, i, ops[j].now)
  }

  predicate ClockRuns(ops: seq<Op>) {
    forall i, j :: 0 <= i < j < |ops| ==> ops[i].now <= ops[j].now
  }

  // ----- sequences of entries

  lemma {:induction false} FindIs(entries: seq<Entry>, key: string)
    ensures Find(entries, key).Some? <==> exists i :: 0 <= i < |entries| && entries[i].key == key
    ensures Find(entries, key).Some? ==> Find(entries, key).value in entries && Find(entries, key).value.key == key
    decreases |entries|
  {
    if entries != [] {
      FindIs(entries[1..], key);
      if Find(entries[1..], key).Some? {
        var i :| 0 <= i < |entries[1..]| && entries[1..][i].key == key;
        assert entries[i + 1].key == key;
      }
      if i :| 0 <= i < |entries| && entries[i].key == key {
        assert i > 0 ==> entries[1..][i - 1].key == key;
      }
    }
  }

  /** Removing a key keeps every other entry, in order. */
  lemma {:induction false} RemoveIs(entries: seq<Entry>, key: string)
    ensures forall e :: e in Remove(entries, key) <==> e in entries && e.key != key
    decreases |entries|
  {
    if entries != [] {
      RemoveIs(entries[1..], key);
      assert entries == [entries[0]] + entries[1..];
    }
  }

  lemma {:induction false} SweepIs(entries: seq<Entry>, now: int)
    ensures forall e :: e in Sweep(entries, now) <==> e in entries && e.expiresAt > now
    decreases |entries|
  {
    if entries != [] {
      SweepIs(entries[1..], now);
      assert entries == [entries[0]] + entries[1..];
    }
  }

  /** Entries ordered by a rank of their keys. */
  ghost predicate Ranked(ops: seq<Op>, entries: seq<Entry>) {
    forall i, j :: 0 <= i < j < |entries| ==> LatestSet(ops, entries[i].key) < LatestSet(ops, entries[j].key)
  }

  /** Every entry of a part that comes later in the list has a higher rank than the first. */
  lemma FirstIsLowest(ops: seq<Op>, entries: seq<Entry>, part: seq<Entry>)
    requires entries != [] && Ranked(ops, entries) && Ranked(ops, part) && forall e :: e in part ==> e in entries[1..]
    ensures Ranked(ops, [entries[0]] + part)
  {
    forall j | 0 <= j < |part|
      ensures LatestSet(ops, entries[0].key) < LatestSet(ops, part[j].key)
    {
      assert part[j] in entries[1..];
      var i :| 0 <= i < |entries| - 1 && entries[1..][i] == part[j];
      assert entries[i + 1] == part[j];
    }
  }

  lemma RestRanked(ops: seq<Op>, entries: seq<Entry>)
    requires entries != [] && Ranked(ops, entries)
    ensures Ranked(ops, entries[1..])
  {
  }

  lemma {:induction false} RemoveRanked(ops: seq<Op>, entries: seq<Entry>, key: string)
    requires Ranked(ops, entries)
    ensures Ranked(ops, Remove(entries, key)) && |Remove(entries, key)| <= |entries|
    decreases |entries|
  {
    if entries != [] {
      RestRanked(ops, entries);
      RemoveRanked(ops, entries[1..], key);
      RemoveIs(entries[1..], key);
      FirstIsLowest(ops, entries, Remove(entries[1..], key));
    }
  }

  lemma {:induction false} SweepRanked(ops: seq<Op>, entries: seq<Entry>, now: int)
    requires Ranked(ops, entries)
    ensures Ranked(ops, Sweep(entries, now)) && |Sweep(entries, now)| <= |entries|
    decreases |entries|
  {
    if entries != [] {
      RestRanked(ops, entries);
      SweepRanked(ops, entries[1..], now);
      SweepIs(entries[1..], now);
      FirstIsLowest(ops, entries, Sweep(entries[1..], now));
    }
  }

  // ----- what every operation keeps

  /** Every entry holds the latest value set for its key, and entries stand in the order of those
      settings. */
  ghost predicate Current(ops: seq<Op>, entries: seq<Entry>) {
    && Ranked(ops, entries)
    && forall e :: e in entries ==>
                     var i := LatestSet(ops, e.key);
                     0 <= i && e.result == ops[i].result && e.expiresAt == ops[i].now + ops[i].ttlMs
  }

  /** A key that was set but is gone went out of date, or a thousand other keys were set after it. */
  ghost predicate Justified(ops: seq<Op>, entries: seq<Entry>) {
    forall key :: 0 <= LatestSet(ops, key) && Find(entries, key).None? ==> Gone(ops, LatestSet(ops, key))
  }

  ghost predicate Gone(ops: seq<Op>, i: int)
    requires 0 <= i < |ops| && ops[i].Set?
  {
    Lapsed(ops, i) || |SetAfter(ops, i)| >= DEFAULT_MAX_CACHE_ENTRIES
  }

  /** The same during an operation, for the keys that it does not set. */
  ghost predicate JustifiedFor(ops: seq<Op>, op: Op, entries: seq<Entry>) {
    forall key :: 0 <= LatestSet(ops, key) && Find(entries, key).None? && !(op.Set? && op.key == key) ==>
                    IsSet(ops, op, LatestSet(ops, key)) && Gone(ops + [op], LatestSet(ops, key))
  }

  predicate IsSet(ops: seq<Op>, op: Op, i: int) {
    0 <= i < |ops| && (ops + [op])[i].Set?
  }

  lemma LatestAppend(ops: seq<Op>, op: Op, key: string)
    ensures LatestSet(ops + [op], key) == if op.Set? && op.key == key then |ops| else LatestSet(ops, key)
  {
    assert (ops + [op])[..|ops|] == ops;
  }

  lemma SetAfterGrows(ops: seq<Op>, op: Op, i: int)
    requires -1 <= i < |ops|
    ensures SetAfter(ops, i) <= SetAfter(ops + [op], i) && |SetAfter(ops, i)| <= |SetAfter(ops + [op], i)|
  {
    forall key | key in SetAfter(ops, i)
      ensures key in SetAfter(ops + [op], i)
    {
      var j :| i < j < |ops| && ops[j].Set? && ops[j].key == key;
      assert (ops + [op])[j] == ops[j];
    }
    SubsetIsSmaller(SetAfter(ops, i), SetAfter(ops + [op], i));
  }

  lemma {:induction false} SubsetIsSmaller(a: set<string>, b: set<string>)
    requires a <= b
    ensures |a| <= |b|
    decreases |a|
  {
    if a != {} {
      var x :| x in a;
      SubsetIsSmaller(a - {x}, b - {x});
    }
  }

  function KeysOf(entries: seq<Entry>): set<string> {
    set i | 0 <= i < |entries| :: entries[i].key
  }

  lemma {:induction false} DistinctKeysCount(ops: seq<Op>, entries: seq<Entry>)
    requires Ranked(ops, entries)
    ensures |KeysOf(entries)| == |entries|
    decreases |entries|
  {
    if entries != [] {
      var init, last := entries[..|entries| - 1], entries[|entries| - 1];
      InitIsRanked(ops, entries);
      DistinctKeysCount(ops, init);
      KeysOfLast(init, last);
      LastIsHighest(ops, init, last);
    } else {
      assert KeysOf(entries) == {};
    }
  }

  lemma InitIsRanked(ops: seq<Op>, entries: seq<Entry>)
    requires Ranked(ops, entries) && entries != []
    ensures entries == entries[..|entries| - 1] + [entries[|entries| - 1]] && Ranked(ops, entries[..|entries| - 1])
  {
    var init := entries[..|entries| - 1];
    assert forall i :: 0 <= i < |init| ==> init[i] == entries[i];
  }

  lemma KeysOfLast(init: seq<Entry>, last: Entry)
    ensures KeysOf(init + [last]) == KeysOf(init) + {last.key}
  {
    var entries := init + [last];
    assert entries[|init|] == last && forall i :: 0 <= i < |init| ==> entries[i] == init[i];
  }

  lemma LastIsHighest(ops: seq<Op>, init: seq<Entry>, last: Entry)
    requires Ranked(ops, init + [last])
    ensures last.key !in KeysOf(init)
  {
    var entries := init + [last];
    forall i | 0 <= i < |init|
      ensures init[i].key != last.key
    {
      assert LatestSet(ops, entries[i].key) < LatestSet(ops, entries[|init|].key);
    }
  }

  /** The oldest of more than a thousand entries has that many keys set after it. */
  lemma OldestIsOld(ops: seq<Op>, entries: seq<Entry>)
    requires Current(ops, entries) && |entries| > DEFAULT_MAX_CACHE_ENTRIES
    ensures 0 <= LatestSet(ops, entries[0].key)
    ensures |SetAfter(ops, LatestSet(ops, entries[0].key))| >= DEFAULT_MAX_CACHE_ENTRIES
  {
    var rest, i := entries[1..], LatestSet(ops, entries[0].key);
    assert entries[0] in entries;
    DistinctKeysCount(ops, rest);
    forall key | key in KeysOf(rest)
      ensures key in SetAfter(ops, i)
    {
      var k :| 0 <= k < |rest| && rest[k].key == key;
      assert rest[k] == entries[k + 1] && entries[k + 1] in entries;
    }
    SubsetIsSmaller(KeysOf(rest), SetAfter(ops, i));
  }

  lemma {:induction false} EvictKeeps(ops: seq<Op>, entries: seq<Entry>)
    requires Current(ops, entries) && Justified(ops, entries)
    ensures Current(ops, Evict(entries)) && Justified(ops, Evict(entries))
    decreases |entries|
  {
    if |entries| > DEFAULT_MAX_CACHE_ENTRIES && entries[0].key != "" {
      OldestIsOld(ops, entries);
      TailIsCurrent(ops, entries);
      forall key | 0 <= LatestSet(ops, key) && Find(entries[1..], key).None?
        ensures Gone(ops, LatestSet(ops, key))
      {
        assert key != entries[0].key ==> Find(entries, key).None?;
      }
      EvictKeeps(ops, entries[1..]);
    }
  }

  lemma TailIsCurrent(ops: seq<Op>, entries: seq<Entry>)
    requires Current(ops, entries) && entries != []
    ensures Current(ops, entries[1..])
  {
  }

  lemma {:induction false} EvictIsCurrent(ops: seq<Op>, entries: seq<Entry>)
    requires Current(ops, entries)
    ensures Current(ops, Evict(entries))
    decreases |entries|
  {
    if |entries| > DEFAULT_MAX_CACHE_ENTRIES && entries[0].key != "" {
      TailIsCurrent(ops, entries);
      EvictIsCurrent(ops, entries[1..]);
    }
  }

  lemma {:induction false} FindRemove(entries: seq<Entry>, key: string, other: string)
    ensures Find(Remove(entries, key), other) == if other == key then None else Find(entries, other)
    decreases |entries|
  {
    if entries != [] {
      FindRemove(entries[1..], key, other);
      assert entries[0].key != key ==> Remove(entries, key)[1..] == Remove(entries[1..], key);
    }
  }

  lemma {:induction false} FindSweep(entries: seq<Entry>, now: int, key: string)
    requires Find(entries, key).Some? && Find(entries, key).value.expiresAt > now
    ensures Find(Sweep(entries, now), key) == Find(entries, key)
    decreases |entries|
  {
    if entries[0].key != key {
      FindSweep(entries[1..], now, key);
      assert entries[0].expiresAt > now ==> Sweep(entries, now)[1..] == Sweep(entries[1..], now);
    }
  }

  lemma {:induction false} FindAppend(rest: seq<Entry>, last: Entry, key: string)
    ensures Find(rest + [last], key) == if Find(rest, key).Some? then Find(rest, key)
                                        else if last.key == key then Some(last) else None
    decreases |rest|
  {
    if rest == [] {
      assert rest + [last] == [last];
    } else {
      assert (rest + [last])[1..] == rest[1..] + [last];
      FindAppend(rest[1..], last, key);
    }
  }

  lemma SweepIsCurrent(ops: seq<Op>, entries: seq<Entry>, now: int)
    requires Current(ops, entries)
    ensures Current(ops, Sweep(entries, now))
  {
    SweepRanked(ops, entries, now);
    SweepIs(entries, now);
  }

  lemma GetIsCurrent(ops: seq<Op>, s: State, key: string, now: int)
    requires Current(ops, s.entries)
    ensures Current(ops, StepGet(s, key, now).entries)
  {
    RemoveRanked(ops, s.entries, key);
    RemoveIs(s.entries, key);
  }

  lemma GetIsNoSet(ops: seq<Op>, op: Op)
    requires op.Get?
    ensures forall key :: LatestSet(ops + [op], key) == LatestSet(ops, key)
    ensures forall i :: 0 <= i < |ops| ==> (ops + [op])[i] == ops[i]
  {
    forall key
      ensures LatestSet(ops + [op], key) == LatestSet(ops, key)
    {
      LatestAppend(ops, op, key);
    }
  }

  lemma LatestAfterSet(ops: seq<Op>, op: Op)
    requires op.Set?
    ensures forall key :: LatestSet(ops + [op], key) == if op.key == key then |ops| else LatestSet(ops, key)
    ensures forall i :: 0 <= i < |ops| ==> (ops + [op])[i] == ops[i]
  {
    forall key
      ensures LatestSet(ops + [op], key) == if op.key == key then |ops| else LatestSet(ops, key)
    {
      LatestAppend(ops, op, key);
    }
  }

  /** Setting a key: the other entries stay, the key comes last with its new value. */
  lemma PutIsCurrent(ops: seq<Op>, entries: seq<Entry>, op: Op)
    requires op.Set? && Current(ops, entries)
    ensures Current(ops + [op], PutLast(entries, op))
  {
    var rest, ops', entries' := Remove(entries, op.key), ops + [op], PutLast(entries, op);
    PutIsRanked(ops, entries, op);
    RemoveIs(entries, op.key);
    LatestAfterSet(ops, op);
    forall e | e in entries'
      ensures var i := LatestSet(ops', e.key); 0 <= i && e.result == ops'[i].result &&
                                               e.expiresAt == ops'[i].now + ops'[i].ttlMs
    {
      assert e in rest || e.key == op.key;
    }
  }

  lemma PutIsRanked(ops: seq<Op>, entries: seq<Entry>, op: Op)
    requires op.Set? && Ranked(ops, entries)
    ensures Ranked(ops + [op], PutLast(entries, op))
  {
    var rest := Remove(entries, op.key);
    RemoveRanked(ops, entries, op.key);
    RemoveIs(entries, op.key);
    LatestAfterSet(ops, op);
    assert forall i :: 0 <= i < |rest| ==> rest[i] in rest;
  }

  lemma NotPut(entries: seq<Entry>, op: Op, key: string)
    requires op.Set? && Find(PutLast(entries, op), key).None?
    ensures key != op.key && Find(entries, key).None?
  {
    FindAppend(Remove(entries, op.key), Entry(op.key, op.now + op.ttlMs, op.result), key);
    FindRemove(entries, op.key, key);
  }

  /** Whatever the clock says, every operation keeps the entries current. */
  lemma StepIsCurrent(ops: seq<Op>, s: State, op: Op)
    requires Current(ops, s.entries)
    ensures Current(ops + [op], Step(s, op).entries)
  {
    if op.Get? {
      GetIsCurrent(ops, s, op.key, op.now);
      GetIsNoSet(ops, op);
    } else {
      SweepIsCurrent(ops, s.entries, op.now);
      PutIsCurrent(ops, Swept(s, op.now), op);
      EvictIsCurrent(ops + [op], PutLast(Swept(s, op.now), op));
    }
  }

  lemma {:induction false} AfterIsCurrent(ops: seq<Op>)
    ensures Current(ops, After(ops).entries)
    decreases |ops|
  {
    if ops != [] {
      var init, last := ops[..|ops| - 1], ops[|ops| - 1];
      AfterIsCurrent(init);
      StepIsCurrent(init, After(init), last);
      assert ops == init + [last];
    }
  }

  /** A hit is always the latest value set for that key, and not out of date. */
  lemma HitIsLatest(ops: seq<Op>, key: string, now: int)
    requires Lookup(After(ops), key, now).Some?
    ensures var i := LatestSet(ops, key);
            0 <= i && Lookup(After(ops), key, now) == Some(ops[i].result) && !Expired(ops, i, now)
  {
    AfterIsCurrent(ops);
    FindIs(After(ops).entries, key);
  }

  // ----- why an entry is gone

  lemma GoneForGood(ops: seq<Op>, op: Op, i: int)
    requires 0 <= i < |ops| && ops[i].Set? && Gone(ops, i)
    ensures IsSet(ops, op, i) && Gone(ops + [op], i)
  {
    SetAfterGrows(ops, op, i);
    if Lapsed(ops, i) {
      var j :| i < j < |ops| && Expired(ops, i, ops[j].now);
      assert (ops + [op])[j] == ops[j] && (ops + [op])[i] == ops[i];
      assert Expired(ops + [op], i, (ops + [op])[j].now);
    }
  }

  lemma LapsesNow(ops: seq<Op>, op: Op, i: int)
    requires 0 <= i < |ops| && ops[i].Set? && Expired(ops, i, op.now)
    ensures IsSet(ops, op, i) && Gone(ops + [op], i)
  {
    assert (ops + [op])[|ops|] == op && (ops + [op])[i] == ops[i];
    assert Expired(ops + [op], i, (ops + [op])[|ops|].now);
  }

  lemma StillJustified(ops: seq<Op>, op: Op, entries: seq<Entry>)
    requires Justified(ops, entries)
    ensures JustifiedFor(ops, op, entries)
  {
    forall key | 0 <= LatestSet(ops, key) && Find(entries, key).None?
      ensures IsSet(ops, op, LatestSet(ops, key)) && Gone(ops + [op], LatestSet(ops, key))
    {
      GoneForGood(ops, op, LatestSet(ops, key));
    }
  }

  /** Taking out an entry that is out of date at the time of the operation. */
  lemma OutdatedMayGo(ops: seq<Op>, op: Op, entries: seq<Entry>, key: string)
    requires Current(ops, entries) && Find(entries, key).Some? && Find(entries, key).value.expiresAt <= op.now
    ensures 0 <= LatestSet(ops, key)
    ensures IsSet(ops, op, LatestSet(ops, key)) && Gone(ops + [op], LatestSet(ops, key))
  {
    FindIs(entries, key);
    LapsesNow(ops, op, LatestSet(ops, key));
  }

  lemma SweepJustifies(ops: seq<Op>, op: Op, entries: seq<Entry>)
    requires Current(ops, entries) && JustifiedFor(ops, op, entries)
    ensures JustifiedFor(ops, op, Sweep(entries, op.now))
  {
    var swept := Sweep(entries, op.now);
    forall key | 0 <= LatestSet(ops, key) && Find(swept, key).None? && !(op.Set? && op.key == key)
      ensures IsSet(ops, op, LatestSet(ops, key)) && Gone(ops + [op], LatestSet(ops, key))
    {
      if Find(entries, key).Some? {
        if Find(entries, key).value.expiresAt > op.now {
          FindSweep(entries, op.now, key);
        } else {
          OutdatedMayGo(ops, op, entries, key);
        }
      }
    }
  }

  lemma PutJustifies(ops: seq<Op>, op: Op, entries: seq<Entry>)
    requires op.Set? && JustifiedFor(ops, op, entries)
    ensures Justified(ops + [op], PutLast(entries, op))
  {
    LatestAfterSet(ops, op);
    forall key | 0 <= LatestSet(ops + [op], key) && Find(PutLast(entries, op), key).None?
      ensures Gone(ops + [op], LatestSet(ops + [op], key))
    {
      NotPut(entries, op, key);
    }
  }

  lemma GetJustifies(ops: seq<Op>, s: State, op: Op)
    requires op.Get? && Current(ops, s.entries) && JustifiedFor(ops, op, s.entries)
    ensures Justified(ops + [op], StepGet(s, op.key, op.now).entries)
  {
    var entries := StepGet(s, op.key, op.now).entries;
    GetIsNoSet(ops, op);
    forall key | 0 <= LatestSet(ops + [op], key) && Find(entries, key).None?
      ensures Gone(ops + [op], LatestSet(ops + [op], key))
    {
      if Find(s.entries, key).Some? {
        FindRemove(s.entries, op.key, key);
        OutdatedMayGo(ops, op, s.entries, key);
      }
    }
  }

  lemma StepJustifies(ops: seq<Op>, s: State, op: Op)
    requires Current(ops, s.entries) && Justified(ops, s.entries)
    ensures Justified(ops + [op], Step(s, op).entries)
  {
    StillJustified(ops, op, s.entries);
    if op.Get? {
      GetJustifies(ops, s, op);
    } else {
      SweepJustifies(ops, op, s.entries);
      SweepIsCurrent(ops, s.entries, op.now);
      PutIsCurrent(ops, Swept(s, op.now), op);
      PutJustifies(ops, op, Swept(s, op.now));
      EvictKeeps(ops + [op], PutLast(Swept(s, op.now), op));
    }
  }

  lemma {:induction false} AfterIsJustified(ops: seq<Op>)
    ensures Justified(ops, After(ops).entries)
    decreases |ops|
  {
    if ops != [] {
      var init, last := ops[..|ops| - 1], ops[|ops| - 1];
      AfterIsJustified(init);
      AfterIsCurrent(init);
      NextIsJustified(ops, After(init));
    }
  }

  lemma NextIsJustified(ops: seq<Op>, s: State)
    requires ops != [] && s == After(ops[..|ops| - 1])
    requires Current(ops[..|ops| - 1], s.entries) && Justified(ops[..|ops| - 1], s.entries)
    ensures Justified(ops, After(ops).entries)
  {
    AfterLast(ops);
    StepJustifies(ops[..|ops| - 1], s, ops[|ops| - 1]);
  }

  lemma AfterLast(ops: seq<Op>)
    requires ops != []
    ensures ops[..|ops| - 1] + [ops[|ops| - 1]] == ops && After(ops) == Step(After(ops[..|ops| - 1]), ops[|ops| - 1])
  {
    InitAndLast(ops);
  }

  lemma InitAndLast(ops: seq<Op>)
    requires ops != []
    ensures ops[..|ops| - 1] + [ops[|ops| - 1]] == ops
  {
  }

  /** A miss is a key that was never set, or is out of date or was at the time of some operation since
      it was set, or was pushed out by a thousand other keys set after it. */
  lemma MissIsJustified(ops: seq<Op>, key: string, now: int)
    requires Lookup(After(ops), key, now).None?
    ensures var i := LatestSet(ops, key);
            i == -1 || Expired(ops, i, now) || Lapsed(ops, i) || |SetAfter(ops, i)| >= DEFAULT_MAX_CACHE_ENTRIES
  {
    AfterIsJustified(ops);
    AfterIsCurrent(ops);
    FindIs(After(ops).entries, key);
    if Find(After(ops).entries, key).None? && LatestSet(ops, key) != -1 {
      assert Gone(ops, LatestSet(ops, key));
    }
  }

  /** With a clock that never goes back, what was out of date once still is. */
  lemma LapsedIsExpired(ops: seq<Op>, i: int, op: Op)
    requires ClockRuns(ops + [op]) && 0 <= i < |ops| && ops[i].Set? && Lapsed(ops, i)
    ensures Expired(ops, i, op.now)
  {
    var j :| i < j < |ops| && Expired(ops, i, ops[j].now);
    assert (ops + [op])[j] == ops[j] && (ops + [op])[|ops|] == op;
  }

  /** The key just set is in the cache. */
  lemma JustSetIsPresent(s: State, op: Op)
    requires op.Set?
    ensures Find(Step(s, op).entries, op.key) == Some(Entry(op.key, op.now + op.ttlMs, op.result))
  {
    RemoveIs(Swept(s, op.now), op.key);
    LastSurvives(Remove(Swept(s, op.now), op.key), Entry(op.key, op.now + op.ttlMs, op.result));
  }

  lemma {:induction false} LastSurvives(rest: seq<Entry>, last: Entry)
    requires forall e :: e in rest ==> e.key != last.key
    ensures Find(Evict(rest + [last]), last.key) == Some(last)
    decreases |rest|
  {
    if rest == [] {
      assert rest + [last] == [last];
    } else {
      assert (rest + [last])[1..] == rest[1..] + [last] && rest[0] in rest;
      LastSurvives(rest[1..], last);
      FindAppend(rest, last, last.key);
      FindIs(rest, last.key);
    }
  }

  /** The eviction loop brings the cache down to its limit exactly when no empty key is among the
      entries that have to go. */
  lemma {:induction false} EvictFitsExactlyWhen(entries: seq<Entry>)
    ensures |Evict(entries)| <= DEFAULT_MAX_CACHE_ENTRIES <==>
            forall i :: 0 <= i < |entries| - DEFAULT_MAX_CACHE_ENTRIES ==> entries[i].key != ""
    decreases |entries|
  {
    if |entries| > DEFAULT_MAX_CACHE_ENTRIES && entries[0].key != "" {
      EvictFitsExactlyWhen(entries[1..]);
      var rest := entries[1..];
      assert forall i :: 0 <= i < |rest| ==> rest[i] == entries[i + 1];
      assert forall i :: 1 <= i < |entries| ==> entries[i] == rest[i - 1];
    }
  }

  lemma {:induction false} EvictIsPart(entries: seq<Entry>)
    ensures forall e :: e in Evict(entries) ==> e in entries
    decreases |entries|
  {
    if |entries| > DEFAULT_MAX_CACHE_ENTRIES && entries[0].key != "" {
      EvictIsPart(entries[1..]);
    }
  }

  lemma {:induction false} NoEmptyKeys(ops: seq<Op>)
    requires forall op :: op in ops && op.Set? ==> op.key != ""
    ensures forall e :: e in After(ops).entries ==> e.key != ""
    ensures |After(ops).entries| <= DEFAULT_MAX_CACHE_ENTRIES
    decreases |ops|
  {
    if ops != [] {
      var init, last := ops[..|ops| - 1], ops[|ops| - 1];
      NoEmptyKeys(init);
      assert last in ops;
      StepHasNoEmptyKeys(After(init), last);
    }
  }

  lemma StepHasNoEmptyKeys(s: State, op: Op)
    requires (forall e :: e in s.entries ==> e.key != "") && |s.entries| <= DEFAULT_MAX_CACHE_ENTRIES &&
             (op.Set? ==> op.key != "")
    ensures forall e :: e in Step(s, op).entries ==> e.key != ""
    ensures |Step(s, op).entries| <= DEFAULT_MAX_CACHE_ENTRIES
  {
    if op.Get? {
      RemoveIs(s.entries, op.key);
      RemoveRankedLength(s.entries, op.key);
    } else {
      SweepIs(s.entries, op.now);
      PutEvictHasNoEmptyKeys(Swept(s, op.now), op);
    }
  }

  lemma PutEvictHasNoEmptyKeys(entries: seq<Entry>, op: Op)
    requires (forall e :: e in entries ==> e.key != "") && op.Set? && op.key != ""
    ensures forall e :: e in Evict(PutLast(entries, op)) ==> e.key != ""
    ensures |Evict(PutLast(entries, op))| <= DEFAULT_MAX_CACHE_ENTRIES
  {
    var all := PutLast(entries, op);
    RemoveIs(entries, op.key);
    assert forall e :: e in all ==> e in Remove(entries, op.key) || e.key == op.key;
    EvictIsPart(all);
    assert forall i :: 0 <= i < |all| ==> all[i] in all;
    EvictFitsExactlyWhen(all);
  }

  lemma {:induction false} RemoveRankedLength(entries: seq<Entry>, key: string)
    ensures |Remove(entries, key)| <= |entries|
    decreases |entries|
  {
    if entries != [] {
      RemoveRankedLength(entries[1..], key);
    }
  }

  lemma {:induction false} SweepLength(entries: seq<Entry>, now: int)
    ensures |Sweep(entries, now)| <= |entries|
    decreases |entries|
  {
    if entries != [] {
      SweepLength(entries[1..], now);
    }
  }

  /** What a set does to the entries of other keys: if the cache is full or a second has passed since
      the last sweep, those out of date go; and with room for one more no other goes. */
  lemma SetSweepsExactly(s: State, op: Op, e: Entry)
    requires op.Set? && e.key != op.key
    ensures var s', due := Step(s, op), |s.entries| >= 1000 || op.now - s.lastSweepAt >= 1000;
            && s'.lastSweepAt == (if due then op.now else s.lastSweepAt)
            && (e in s'.entries ==> e in s.entries && (due ==> op.now < e.expiresAt))
            && (|s.entries| < 1000 && e in s.entries && (due ==> op.now < e.expiresAt) ==> e in s'.entries)
  {
    SweepIs(s.entries, op.now);
    SweepLength(s.entries, op.now);
    var swept := Swept(s, op.now);
    RemoveIs(swept, op.key);
    RemoveRankedLength(swept, op.key);
    EvictIsPart(PutLast(swept, op));
    assert e in PutLast(swept, op) <==> e in Remove(swept, op.key);
  }

  /** Every entry was still good when the last sweep took place. */
  ghost predicate FreshAtSweep(s: State, now: int) {
    0 <= s.lastSweepAt <= now && forall e :: e in s.entries ==> s.lastSweepAt < e.expiresAt
  }

  lemma StepIsFresh(s: State, op: Op, before: int)
    requires FreshAtSweep(s, before) && before <= op.now && (op.Set? ==> 0 < op.ttlMs)
    ensures FreshAtSweep(Step(s, op), op.now)
    ensures op.Set? ==> op.now - Step(s, op).lastSweepAt < 1000
  {
    if op.Get? {
      RemoveIs(s.entries, op.key);
    } else {
      SweepIs(s.entries, op.now);
      RemoveIs(Swept(s, op.now), op.key);
      EvictIsPart(PutLast(Swept(s, op.now), op));
    }
  }

  lemma {:induction false} RunIsFresh(ops: seq<Op>)
    requires ops != [] && ClockRuns(ops) && 0 <= ops[0].now
    requires forall i :: 0 <= i < |ops| && ops[i].Set? ==> 0 < ops[i].ttlMs
    ensures FreshAtSweep(After(ops), ops[|ops| - 1].now)
    decreases |ops|
  {
    var init, last := ops[..|ops| - 1], ops[|ops| - 1];
    if init == [] {
      StepIsFresh(State([], 0), last, 0);
    } else {
      RunIsFresh(init);
      StepIsFresh(After(init), last, init[|init| - 1].now);
    }
  }

  /** With a clock that never goes back and times to live above zero, no entry that went out of date
      a second ago outlives a set. */
  lemma {:induction false} NothingStaleIsKept(ops: seq<Op>, e: Entry)
    requires ops != [] && ClockRuns(ops) && 0 <= ops[0].now
    requires forall i :: 0 <= i < |ops| && ops[i].Set? ==> 0 < ops[i].ttlMs
    requires ops[|ops| - 1].Set? && e in After(ops).entries
    ensures ops[|ops| - 1].now - 1000 < e.expiresAt
  {
    var init, last := ops[..|ops| - 1], ops[|ops| - 1];
    RunIsFresh(ops);
    if init == [] {
      StepIsFresh(State([], 0), last, 0);
    } else {
      RunIsFresh(init);
      StepIsFresh(After(init), last, init[|init| - 1].now);
    }
  }

  /** With keys as `buildCacheKey` makes them, the cache never holds more than 1000 entries. */
  lemma SizeIsBounded(ops: seq<Op>)
    requires forall op :: op in ops && op.Set? ==>
                            exists agentId, session, hash :: op.key == BuildCacheKey(agentId, session, hash)
    ensures |After(ops).entries| <= DEFAULT_MAX_CACHE_ENTRIES
  {
    NoEmptyKeys(ops);
  }
}

module RecallCache {
  import opened RecallCacheSpec
  import opened Wrappers

  class ActiveRecallCache {
    var entries: seq<Entry>
    var lastSweepAt: int

    function Snapshot(): State
      reads this
    {
      State(entries, lastSweepAt)
    }

    constructor ()
      ensures Snapshot() == After([])
    {
      entries, lastSweepAt := [], 0;
    }

    method GetCachedResult(cacheKey: string, now: int) returns (result: Option<Result>)
      modifies this
      ensures result == Lookup(old(Snapshot()), cacheKey, now)
      ensures Snapshot() == Step(old(Snapshot()), Get(cacheKey, now))
    {
      var cached := Find(entries, cacheKey);
      if cached.None? {
        return None;
      }
      if cached.value.expiresAt <= now {
        entries := Remove(entries, cacheKey);
        return None;
      }
      return Some(cached.value.result);
    }

    method SetCachedResult(cacheKey: string, result: Result, ttlMs: int, now: int)
      modifies this
      ensures Snapshot() == Step(old(Snapshot()), Set(cacheKey, result, ttlMs, now))
    {
      if |entries| >= DEFAULT_MAX_CACHE_ENTRIES || now - lastSweepAt >= CACHE_SWEEP_INTERVAL_MS {
        SweepExpiredCacheEntries(now);
        lastSweepAt := now;
      }
      entries := Remove(entries, cacheKey) + [Entry(cacheKey, now + ttlMs, result)];
      ghost var all := entries;
      while |entries| > DEFAULT_MAX_CACHE_ENTRIES
        invariant Evict(entries) == Evict(all)
        invariant lastSweepAt == if SweepDue(old(Snapshot()), now) then now else old(lastSweepAt)
      {
        if entries[0].key == "" {
          break;
        }
        entries := entries[1..];
      }
    }

    method SweepExpiredCacheEntries(now: int)
      modifies this`entries
      ensures entries == Sweep(old(entries), now)
    {
      var all, kept := entries, [];
      assert all[0..] == all;
      for i := 0 to |all|
        invariant entries == all && kept + Sweep(all[i..], now) == Sweep(all, now)
      {
        assert all[i..][1..] == all[i + 1..];
        if all[i].expiresAt > now {
          kept := kept + [all[i]];
        }
      }
      entries := kept;
    }
  }
}
