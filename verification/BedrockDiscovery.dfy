/** Discovery of Bedrock models with a cache that shares running fetches
    (`discoverBedrockModels` in extensions/amazon-bedrock/discovery.ts), for every interleaving of
    calls and replies. */
module BedrockDiscovery {
  import opened Wrappers

  datatype Model = Model(id: string, name: string)
  type Models = seq<Model>

  /** A cache key: everything the request depends on; the refresh interval is part of it. */
  datatype Key = Key(request: string, refreshIntervalSeconds: nat)

  datatype Outcome = Running | Succeeded(value: Models) | Failed

  /** A fetch started by some call.  `finished` tells that the code after the starter's `await` has
      run; between settling and that, other calls may come. */
  datatype Fetch = Fetch(key: Key, startedAt: int, outcome: Outcome, finished: bool)

  datatype CacheEntry = CacheEntry(expiresAt: int, value: Option<Models>, inFlight: Option<nat>)

  /** How a call was answered: from the cache, by a fetch already running, or by its own. */
  datatype Answer = Hit(value: Models) | Joined(fetch: nat) | Started(fetch: nat)

  datatype Call = Call(key: Key, now: int, answer: Answer)

  datatype State = State(cache: map<Key, CacheEntry>, fetches: seq<Fetch>, calls: seq<Call>)

  datatype Event =
    | Called(key: Key, now: int)
    | Settles(fetch: nat, result: Option<Models>)
    | Continues(fetch: nat)

  const INITIAL := State(map[], [], [])

  function ExpiresAt(key: Key, now: int): int {
    now + key.refreshIntervalSeconds * 1000
  }

  function Answered(s: State, key: Key, now: int): Answer {
    var cached := if key.refreshIntervalSeconds > 0 && key in s.cache then Some(s.cache[key]) else None;
    if cached.Some? && cached.value.value.Some? && cached.value.expiresAt > now then Hit(cached.value.value.value)
    else if cached.Some? && cached.value.inFlight.Some? then Joined(cached.value.inFlight.value)
    else Started(|s.fetches|)
  }

  function StepCalled(s: State, key: Key, now: int): State {
    var answer := Answered(s, key, now);
    var calls := s.calls + [Call(key, now, answer)];
    if !answer.Started? then s.(calls := calls)
    else
      var cache := if key.refreshIntervalSeconds > 0 then
                     s.cache[key := CacheEntry(ExpiresAt(key, now), None, Some(|s.fetches|))]
                   else s.cache;
      State(cache, s.fetches + [Fetch(key, now, Running, false)], calls)
  }

  function StepContinues(s: State, f: nat): State
    requires f < |s.fetches|
  {
    var fetch := s.fetches[f];
    var cache :=
      if fetch.key.refreshIntervalSeconds == 0 then s.cache
      else if fetch.outcome.Succeeded? then
        s.cache[fetch.key := CacheEntry(ExpiresAt(fetch.key, fetch.startedAt), Some(fetch.outcome.value), None)]
      else s.cache - {fetch.key};
    s.(cache := cache, fetches := s.fetches[f := fetch.(finished := true)])
  }

  /** One step of the program.  An event whose moment has not come does nothing. */
  function Step(s: State, e: Event): State {
    match e
    case Called(key, now) => StepCalled(s, key, now)
    case Settles(f, result) =>
      if f < |s.fetches| && s.fetches[f].outcome.Running? then
        var outcome := if result.Some? then Succeeded(result.value) else Failed;
        s.(fetches := s.fetches[f := s.fetches[f].(outcome := outcome)])
      else s
    case Continues(f) =>
      if f < |s.fetches| && !s.fetches[f].outcome.Running? && !s.fetches[f].finished then StepContinues(s, f) else s
  }

  function Run(s: State, events: seq<Event>): State
    decreases |events|
  {
    if events == [] then s else Run(Step(s, events[0]), events[1..])
  }

  // ----- what every step keeps

  predicate Cached(fetch: Fetch) {
    fetch.key.refreshIntervalSeconds > 0
  }

  /** A fetch whose starter has not continued is the one its key's entry points to. */
  ghost predicate FetchRegistered(s: State) {
    forall f :: 0 <= f < |s.fetches| && Cached(s.fetches[f]) && !s.fetches[f].finished ==>
                  var fetch := s.fetches[f];
                  fetch.key in s.cache &&
                  s.cache[fetch.key] == CacheEntry(ExpiresAt(fetch.key, fetch.startedAt), None, Some(f))
  }

  /** The latest fetch for a key is the one at `f`. */
  ghost predicate Latest(s: State, key: Key, f: nat) {
    f < |s.fetches| && s.fetches[f].key == key && forall g :: f < g < |s.fetches| ==> s.fetches[g].key != key
  }

  /** Every entry comes from the latest fetch for its key: it points to it while its starter waits,
      and holds its value afterwards. */
  ghost predicate EntryJustified(s: State, key: Key, f: nat)
    requires key in s.cache
  {
    Latest(s, key, f) &&
    var fetch := s.fetches[f];
    s.cache[key].expiresAt == ExpiresAt(key, fetch.startedAt) &&
    if fetch.finished then
      fetch.outcome.Succeeded? && s.cache[key].value == Some(fetch.outcome.value) && s.cache[key].inFlight.None?
    else s.cache[key].value.None? && s.cache[key].inFlight == Some(f)
  }

  /** Only failure makes a key's entry disappear. */
  ghost predicate LatestPresent(s: State) {
    forall f: nat, key :: Latest(s, key, f) && key.refreshIntervalSeconds > 0 &&
                          !(s.fetches[f].finished && s.fetches[f].outcome.Failed?) ==>
                            key in s.cache
  }

  ghost predicate EntriesJustified(s: State) {
    forall key :: key in s.cache ==> exists f: nat :: EntryJustified(s, key, f)
  }

  ghost predicate Inv(s: State) {
    && FetchRegistered(s)
    && (forall key :: key in s.cache ==> key.refreshIntervalSeconds > 0)
    && EntriesJustified(s)
    && (forall f :: 0 <= f < |s.fetches| && s.fetches[f].finished ==> !s.fetches[f].outcome.Running?)
    && LatestPresent(s)
  }

  lemma StartJustifies(s: State, key: Key, now: int, k: Key)
    requires Inv(s) && Answered(s, key, now).Started? && k in StepCalled(s, key, now).cache
    ensures exists f: nat :: EntryJustified(StepCalled(s, key, now), k, f)
  {
    var s' := StepCalled(s, key, now);
    if k == key && key.refreshIntervalSeconds > 0 {
      assert EntryJustified(s', k, |s.fetches|);
    } else {
      var f: nat :| EntryJustified(s, k, f);
      assert EntryJustified(s', k, f);
    }
  }

  lemma StartKeepsInv(s: State, key: Key, now: int)
    requires Inv(s) && Answered(s, key, now).Started?
    ensures Inv(StepCalled(s, key, now))
  {
    var s' := StepCalled(s, key, now);
    forall k | k in s'.cache
      ensures exists f: nat :: EntryJustified(s', k, f)
    {
      StartJustifies(s, key, now, k);
    }
    StartRegisters(s, key, now);
    StartLatest(s, key, now);
  }

  lemma StartRegisters(s: State, key: Key, now: int)
    requires FetchRegistered(s) && Answered(s, key, now).Started?
    ensures FetchRegistered(StepCalled(s, key, now))
  {
    forall f | 0 <= f < |s.fetches| && Cached(s.fetches[f]) && !s.fetches[f].finished
      ensures s.fetches[f].key != key
    {
      assert s.fetches[f].key in s.cache;
    }
  }

  lemma StartLatest(s: State, key: Key, now: int)
    requires LatestPresent(s) && Answered(s, key, now).Started?
    ensures LatestPresent(StepCalled(s, key, now))
  {
    var s', n := StepCalled(s, key, now), |s.fetches|;
    forall f: nat, k | Latest(s', k, f) && f < n
      ensures Latest(s, k, f)
    {
      assert forall g :: f < g < n ==> s'.fetches[g] == s.fetches[g];
    }
  }

  lemma CalledKeepsInv(s: State, key: Key, now: int)
    requires Inv(s)
    ensures Inv(StepCalled(s, key, now))
  {
    if Answered(s, key, now).Started? {
      StartKeepsInv(s, key, now);
    } else {
      SameFetchesKeepInv(s, StepCalled(s, key, now));
    }
  }

  /** A step that changes neither keys nor start times nor the cache, and lets nothing but running
      fetches settle. */
  lemma SameFetchesKeepInv(s: State, s': State)
    requires Inv(s) && s'.cache == s.cache && |s'.fetches| == |s.fetches|
    requires forall f :: 0 <= f < |s.fetches| ==>
                           s'.fetches[f] == s.fetches[f] ||
                           (s.fetches[f].outcome.Running? && !s.fetches[f].finished &&
                            s'.fetches[f] == s.fetches[f].(outcome := s'.fetches[f].outcome))
    ensures Inv(s')
  {
    forall k | k in s'.cache
      ensures exists f: nat :: EntryJustified(s', k, f)
    {
      var f: nat :| EntryJustified(s, k, f);
      assert EntryJustified(s', k, f);
    }
    forall f: nat, k | Latest(s', k, f)
      ensures Latest(s, k, f)
    {
      assert forall g :: f < g < |s.fetches| ==> s'.fetches[g].key == s.fetches[g].key;
    }
  }

  lemma ContinueJustifies(s: State, f: nat, k: Key)
    requires Inv(s) && f < |s.fetches| && !s.fetches[f].outcome.Running? && !s.fetches[f].finished
    requires k in StepContinues(s, f).cache
    ensures exists g: nat :: EntryJustified(StepContinues(s, f), k, g)
  {
    var g: nat :| EntryJustified(s, k, g);
    assert k == s.fetches[f].key ==> g == f;
    assert EntryJustified(StepContinues(s, f), k, g);
  }

  lemma ContinuesKeepsInv(s: State, f: nat)
    requires Inv(s) && f < |s.fetches| && !s.fetches[f].outcome.Running? && !s.fetches[f].finished
    ensures Inv(StepContinues(s, f))
  {
    ContinueRegistered(s, f);
    ContinueEntries(s, f);
    ContinueLatest(s, f);
  }

  lemma ContinueRegistered(s: State, f: nat)
    requires Inv(s) && f < |s.fetches| && !s.fetches[f].outcome.Running? && !s.fetches[f].finished
    ensures FetchRegistered(StepContinues(s, f))
  {
  }

  lemma ContinueEntries(s: State, f: nat)
    requires Inv(s) && f < |s.fetches| && !s.fetches[f].outcome.Running? && !s.fetches[f].finished
    ensures EntriesJustified(StepContinues(s, f))
  {
    forall k | k in StepContinues(s, f).cache
      ensures exists g: nat :: EntryJustified(StepContinues(s, f), k, g)
    {
      ContinueJustifies(s, f, k);
    }
  }

  lemma ContinueLatest(s: State, f: nat)
    requires Inv(s) && f < |s.fetches| && !s.fetches[f].outcome.Running? && !s.fetches[f].finished
    ensures LatestPresent(StepContinues(s, f))
  {
    var s', key := StepContinues(s, f), s.fetches[f].key;
    forall g: nat, k | Latest(s', k, g)
      ensures Latest(s, k, g)
    {
      assert forall h :: g < h < |s.fetches| ==> s'.fetches[h].key == s.fetches[h].key;
    }
    if Cached(s.fetches[f]) {
      var g: nat :| EntryJustified(s, key, g);
      assert Latest(s, key, f);
    }
  }

  lemma StepKeepsInv(s: State, e: Event)
    requires Inv(s)
    ensures Inv(Step(s, e))
  {
    match e
    case Called(key, now) => CalledKeepsInv(s, key, now);
    case Settles(f, result) => SameFetchesKeepInv(s, Step(s, e));
    case Continues(f) =>
      if f < |s.fetches| && !s.fetches[f].outcome.Running? && !s.fetches[f].finished {
        ContinuesKeepsInv(s, f);
      }
  }

  lemma {:induction false} RunKeepsInv(s: State, events: seq<Event>)
    requires Inv(s)
    ensures Inv(Run(s, events))
    decreases |events|
  {
    if events != [] {
      StepKeepsInv(s, events[0]);
      RunKeepsInv(Step(s, events[0]), events[1..]);
    }
  }

  /** In every run, at most one fetch per key is on its way. */
  lemma AtMostOneFetchPerKey(events: seq<Event>)
    ensures var fetches := Run(INITIAL, events).fetches;
            forall f, g ::
              (0 <= f < |fetches| && 0 <= g < |fetches| && Cached(fetches[f]) && fetches[f].key == fetches[g].key &&
               !fetches[f].finished && !fetches[g].finished) ==> f == g
  {
    RunKeepsInv(INITIAL, events);
  }

  /** What a call gets when it arrives after any run: a hit is the value of the latest fetch for
      the key, before that fetch's start time plus the interval; while a fetch is on its way the
      call joins it; and a new fetch is started only when neither is possible. */
  lemma CallIsAnsweredRight(events: seq<Event>, key: Key, now: int)
    requires key.refreshIntervalSeconds > 0
    ensures var s := Run(INITIAL, events);
            match Answered(s, key, now)
            case Hit(value) =>
              exists f: nat :: Latest(s, key, f) && s.fetches[f].finished &&
                               s.fetches[f].outcome == Succeeded(value) &&
                               now < s.fetches[f].startedAt + 1000 * key.refreshIntervalSeconds
            case Joined(f) => Latest(s, key, f) && !s.fetches[f].finished
            case Started(_) =>
              forall f: nat :: Latest(s, key, f) ==>
                                 s.fetches[f].finished &&
                                 (s.fetches[f].outcome.Failed? ||
                                  s.fetches[f].startedAt + 1000 * key.refreshIntervalSeconds <= now)
  {
    var s := Run(INITIAL, events);
    RunKeepsInv(INITIAL, events);
    if key in s.cache {
      var f: nat :| EntryJustified(s, key, f);
      assert forall g: nat :: Latest(s, key, g) ==> g == f;
    }
  }

  // ----- what the callers get

  /** The value of a call's promise, once it has one.  The starter of a failed fetch gets an empty
      list; a joiner's promise is the fetch's own. */
  function ResultOf(s: State, call: Call): Option<Models> {
    match call.answer
    case Hit(value) => Some(value)
    case Joined(f) =>
      if f < |s.fetches| && s.fetches[f].outcome.Succeeded? then Some(s.fetches[f].outcome.value) else None
    case Started(f) =>
      if f < |s.fetches| && s.fetches[f].finished then
        (if s.fetches[f].outcome.Succeeded? then Some(s.fetches[f].outcome.value) else Some([]))
      else None
  }

  ghost predicate CallsMatch(s: State) {
    forall i :: 0 <= i < |s.calls| && !s.calls[i].answer.Hit? ==>
                  s.calls[i].answer.fetch < |s.fetches| && s.fetches[s.calls[i].answer.fetch].key == s.calls[i].key
  }

  ghost predicate OneStarter(s: State) {
    forall i, j :: 0 <= i < j < |s.calls| && s.calls[i].answer.Started? && s.calls[j].answer.Started? ==>
                     s.calls[i].answer.fetch < s.calls[j].answer.fetch
  }

  lemma StepMatches(s: State, e: Event)
    requires Inv(s) && CallsMatch(s) && OneStarter(s)
    ensures CallsMatch(Step(s, e)) && OneStarter(Step(s, e))
  {
    if e.Called? {
      CalledMatches(s, e.key, e.now);
    }
  }

  lemma CalledMatches(s: State, key: Key, now: int)
    requires Inv(s) && CallsMatch(s) && OneStarter(s)
    ensures CallsMatch(StepCalled(s, key, now)) && OneStarter(StepCalled(s, key, now))
  {
    JoinedFetchIsKeys(s, key, now);
    var s' := StepCalled(s, key, now);
    assert forall i :: 0 <= i < |s.calls| ==> s'.calls[i] == s.calls[i];
    assert forall f :: 0 <= f < |s.fetches| ==> s'.fetches[f] == s.fetches[f];
  }

  lemma JoinedFetchIsKeys(s: State, key: Key, now: int)
    requires Inv(s)
    ensures var answer := Answered(s, key, now);
            answer.Joined? ==> answer.fetch < |s.fetches| && s.fetches[answer.fetch].key == key
  {
    if key in s.cache {
      var f: nat :| EntryJustified(s, key, f);
    }
  }

  lemma {:induction false} RunMatches(s: State, events: seq<Event>)
    requires Inv(s) && CallsMatch(s) && OneStarter(s)
    ensures CallsMatch(Run(s, events)) && OneStarter(Run(s, events))
    decreases |events|
  {
    if events != [] {
      StepMatches(s, events[0]);
      StepKeepsInv(s, events[0]);
      RunMatches(Step(s, events[0]), events[1..]);
    }
  }

  ghost predicate HasStarter(s: State, f: nat) {
    exists i: nat :: i < |s.calls| && s.calls[i].answer == Started(f)
  }

  /** Every fetch was started by a call. */
  ghost predicate AllStarted(s: State) {
    forall f: nat :: f < |s.fetches| ==> HasStarter(s, f)
  }

  lemma StarterStays(s: State, e: Event, f: nat)
    requires HasStarter(s, f)
    ensures HasStarter(Step(s, e), f)
  {
    var i: nat :| i < |s.calls| && s.calls[i].answer == Started(f);
    assert Step(s, e).calls[i] == s.calls[i];
  }

  lemma StepStarts(s: State, e: Event)
    requires AllStarted(s)
    ensures AllStarted(Step(s, e))
  {
    var s' := Step(s, e);
    forall f: nat | f < |s'.fetches|
      ensures HasStarter(s', f)
    {
      if f < |s.fetches| {
        StarterStays(s, e, f);
      } else {
        assert s'.calls[|s.calls|].answer == Started(f);
      }
    }
  }

  lemma {:induction false} RunStarts(s: State, events: seq<Event>)
    requires AllStarted(s)
    ensures AllStarted(Run(s, events))
    decreases |events|
  {
    if events != [] {
      StepStarts(s, events[0]);
      RunStarts(Step(s, events[0]), events[1..]);
    }
  }

  /** A fetch that a call joined was started by exactly one call, for the same key, and once it has
      succeeded and been taken up both have its value. */
  lemma JoinersGetTheFetchedValue(events: seq<Event>, j: nat) returns (i: nat)
    requires j < |Run(INITIAL, events).calls| && Run(INITIAL, events).calls[j].answer.Joined?
    ensures var s := Run(INITIAL, events);
            var f := s.calls[j].answer.fetch;
            && f < |s.fetches|
            && i < |s.calls| && s.calls[i].answer == Started(f) && s.calls[i].key == s.calls[j].key
            && (forall k :: 0 <= k < |s.calls| && s.calls[k].answer == Started(f) ==> k == i)
            && (s.fetches[f].finished && s.fetches[f].outcome.Succeeded? ==>
                  ResultOf(s, s.calls[i]) == ResultOf(s, s.calls[j]) == Some(s.fetches[f].outcome.value))
  {
    var s := Run(INITIAL, events);
    RunMatches(INITIAL, events);
    RunStarts(INITIAL, events);
    assert HasStarter(s, s.calls[j].answer.fetch);
    i :| i < |s.calls| && s.calls[i].answer == Started(s.calls[j].answer.fetch);
  }

  /** A settled fetch keeps its outcome, so an answer once given stays. */
  lemma {:induction false} OutcomeIsFinal(s: State, events: seq<Event>, f: nat)
    requires f < |s.fetches| && !s.fetches[f].outcome.Running?
    ensures f < |Run(s, events).fetches| && Run(s, events).fetches[f].outcome == s.fetches[f].outcome
    decreases |events|
  {
    if events != [] {
      OutcomeIsFinal(Step(s, events[0]), events[1..], f);
    }
  }

  // ----- fetches by the events that make them

  /** The first reply to a fetch. */
  function FirstReply(events: seq<Event>, f: nat): Option<Option<Models>>
    decreases |events|
  {
    if events == [] then None
    else if events[0].Settles? && events[0].fetch == f then Some(events[0].result)
    else FirstReply(events[1..], f)
  }

  /** Whether the starter of a fetch goes on after the first reply. */
  function IsTakenUp(events: seq<Event>, f: nat): bool
    decreases |events|
  {
    events != [] &&
    (if events[0].Settles? && events[0].fetch == f then Continues(f) in events[1..] else IsTakenUp(events[1..], f))
  }

  function OutcomeOf(reply: Option<Option<Models>>): Outcome {
    match reply
    case None => Running
    case Some(None) => Failed
    case Some(Some(value)) => Succeeded(value)
  }

  lemma {:induction false} SettledFetchFollows(s: State, events: seq<Event>, f: nat)
    requires f < |s.fetches| && !s.fetches[f].outcome.Running?
    ensures f < |Run(s, events).fetches|
    ensures Run(s, events).fetches[f] == s.fetches[f].(finished := s.fetches[f].finished || Continues(f) in events)
    decreases |events|
  {
    if events != [] {
      var s' := Step(s, events[0]);
      assert s'.fetches[f] ==
             s.fetches[f].(finished := s.fetches[f].finished || events[0] == Continues(f));
      SettledFetchFollows(s', events[1..], f);
      assert events == [events[0]] + events[1..];
    }
  }

  lemma {:induction false} RunningFetchFollows(s: State, events: seq<Event>, f: nat)
    requires f < |s.fetches| && s.fetches[f].outcome.Running? && !s.fetches[f].finished
    ensures f < |Run(s, events).fetches|
    ensures Run(s, events).fetches[f] ==
            s.fetches[f].(outcome := OutcomeOf(FirstReply(events, f)), finished := IsTakenUp(events, f))
    decreases |events|
  {
    if events != [] {
      var s' := Step(s, events[0]);
      if events[0].Settles? && events[0].fetch == f {
        assert s'.fetches[f] == s.fetches[f].(outcome := OutcomeOf(Some(events[0].result)));
        SettledFetchFollows(s', events[1..], f);
      } else {
        assert s'.fetches[f] == s.fetches[f];
        RunningFetchFollows(s', events[1..], f);
      }
    }
  }

  /** Every fetch of a run was begun by a call for its key at its start time, which found no better
      answer; it stands as the first reply to it says, and it is taken up if its starter's code went
      on behind that reply. */
  lemma {:induction false} FetchIsOfEvents(s: State, events: seq<Event>, f: nat) returns (i: nat)
    requires |s.fetches| <= f < |Run(s, events).fetches|
    ensures i < |events| && events[i].Called? && |Run(s, events[..i]).fetches| == f
    ensures Run(s, events).fetches[f] ==
            Fetch(events[i].key, events[i].now, OutcomeOf(FirstReply(events[i + 1..], f)),
                  IsTakenUp(events[i + 1..], f))
    decreases |events|
  {
    var s' := Step(s, events[0]);
    if f < |s'.fetches| {
      i := 0;
      assert events[..0] == [];
      RunningFetchFollows(s', events[1..], f);
    } else {
      i := FetchIsOfEvents(s', events[1..], f);
      i := i + 1;
      assert events[..i][0] == events[0] && events[..i][1..] == events[1..][..i - 1];
      assert events[1..][i..] == events[i + 1..];
    }
  }

  /** In every reachable state a key whose latest fetch was taken up as failed has no entry, so the
      next call starts afresh; and no entry ever comes from such a fetch. */
  lemma FailureLeavesNoEntry(events: seq<Event>, key: Key, f: nat, now: int)
    requires var s := Run(INITIAL, events);
             Latest(s, key, f) && s.fetches[f].finished && s.fetches[f].outcome.Failed?
    ensures var s := Run(INITIAL, events);
            key !in s.cache && Answered(s, key, now) == Started(|s.fetches|)
  {
    RunKeepsInv(INITIAL, events);
    EntryIsOfLatest(Run(INITIAL, events), key, f);
  }

  lemma EntryIsOfLatest(s: State, key: Key, f: nat)
    requires Inv(s) && Latest(s, key, f)
    ensures key in s.cache ==> EntryJustified(s, key, f)
  {
    if key in s.cache {
      var g: nat :| EntryJustified(s, key, g);
      assert g == f;
    }
  }

  lemma NoEntryFromFailure(events: seq<Event>, key: Key)
    requires key in Run(INITIAL, events).cache
    ensures exists f: nat :: EntryJustified(Run(INITIAL, events), key, f) &&
                             (Run(INITIAL, events).fetches[f].finished ==>
                                Run(INITIAL, events).fetches[f].outcome.Succeeded?)
  {
    RunKeepsInv(INITIAL, events);
  }

  // ----- merging the two lists

  /** A profile whose normalised id is neither a foundation model's nor an earlier profile's. */
  ghost predicate IsNew(foundation: Models, profiles: Models, normalize: string -> string, p: int)
    requires 0 <= p < |profiles|
  {
    (forall m :: m in foundation ==> normalize(m.id) != normalize(profiles[p].id)) &&
    (forall q :: 0 <= q < p ==> normalize(profiles[q].id) != normalize(profiles[p].id))
  }

  /** `seenIds` after the foundation models and the first `p` profiles. */
  ghost predicate Seen(foundation: Models, profiles: Models, normalize: string -> string, p: int, id: string)
    requires 0 <= p <= |profiles|
  {
    (exists m :: m in foundation && normalize(m.id) == id) ||
    (exists q :: 0 <= q < p && normalize(profiles[q].id) == id)
  }

  /** Foundation models first, then, in order, exactly the profiles that are new. */
  method MergeDiscovered(foundation: Models, profiles: Models, normalize: string -> string)
    returns (discovered: Models, added: seq<nat>)
    ensures |discovered| == |foundation| + |added| && discovered[..|foundation|] == foundation
    ensures forall i :: 0 <= i < |added| ==> added[i] < |profiles| && discovered[|foundation| + i] == profiles[added[i]]
    ensures forall i, j :: 0 <= i < j < |added| ==> added[i] < added[j]
    ensures forall p :: 0 <= p < |profiles| ==> (p in added <==> IsNew(foundation, profiles, normalize, p))
  {
    discovered, added := foundation, [];
    var seenIds := set m | m in foundation :: normalize(m.id);
    for p := 0 to |profiles|
      invariant |discovered| == |foundation| + |added| && discovered[..|foundation|] == foundation
      invariant forall i :: 0 <= i < |added| ==> added[i] < p && discovered[|foundation| + i] == profiles[added[i]]
      invariant forall i, j :: 0 <= i < j < |added| ==> added[i] < added[j]
      invariant forall id :: id in seenIds <==> Seen(foundation, profiles, normalize, p, id)
      invariant forall k :: 0 <= k < p ==> (k in added <==> IsNew(foundation, profiles, normalize, k))
    {
      var id := normalize(profiles[p].id);
      assert IsNew(foundation, profiles, normalize, p) <==> !Seen(foundation, profiles, normalize, p, id);
      forall other
        ensures Seen(foundation, profiles, normalize, p + 1, other) <==>
                Seen(foundation, profiles, normalize, p, other) || other == id
      {
      }
      if id !in seenIds {
        discovered := discovered + [profiles[p]];
        added := added + [p];
        seenIds := seenIds + {id};
      }
    }
  }
}

module BedrockDiscoveryProgram {
  import opened BedrockDiscovery
  import opened Wrappers

  class DiscoveryCache {
    /** `discoveryCache`. */
    var cache: map<Key, CacheEntry>
    /** Every fetch started so far, with the promise's outcome. */
    var fetches: seq<Fetch>
    var calls: seq<Call>

    function Snapshot(): State
      reads this
    {
      State(cache, fetches, calls)
    }

    constructor ()
      ensures Snapshot() == INITIAL
    {
      cache, fetches, calls := map[], [], [];
    }

    /** `discoverBedrockModels` up to its first `await`. */
    method DiscoverBedrockModels(key: Key, now: int) returns (answer: Answer)
      modifies this
      ensures Snapshot() == Step(old(Snapshot()), Called(key, now)) && answer == calls[|calls| - 1].answer
    {
      if key.refreshIntervalSeconds > 0 && key in cache {
        var cached := cache[key];
        if cached.value.Some? && cached.expiresAt > now {
          answer := Hit(cached.value.value);
          calls := calls + [Call(key, now, answer)];
          return;
        }
        if cached.inFlight.Some? {
          answer := Joined(cached.inFlight.value);
          calls := calls + [Call(key, now, answer)];
          return;
        }
      }
      answer := Started(|fetches|);
      calls := calls + [Call(key, now, answer)];
      if key.refreshIntervalSeconds > 0 {
        cache := cache[key := CacheEntry(now + key.refreshIntervalSeconds * 1000, None, Some(|fetches|))];
      }
      fetches := fetches + [Fetch(key, now, Running, false)];
    }

    /** The fetch's own promise settles. */
    method OnFetchSettled(f: nat, result: Option<Models>)
      modifies this`fetches
      ensures Snapshot() == Step(old(Snapshot()), Settles(f, result))
    {
      if f < |fetches| && fetches[f].outcome.Running? {
        fetches := fetches[f := fetches[f].(outcome := if result.Some? then Succeeded(result.value) else Failed)];
      }
    }

    /** The starter's code after its `await`: the value is cached and returned, or the entry is
        deleted and nothing found. */
    method Continue(f: nat) returns (found: Models)
      requires f < |fetches| && !fetches[f].outcome.Running? && !fetches[f].finished
      modifies this
      ensures Snapshot() == Step(old(Snapshot()), Continues(f))
      ensures found == if old(fetches)[f].outcome.Succeeded? then old(fetches)[f].outcome.value else []
      ensures forall call: Call :: call.answer == Started(f) ==> ResultOf(Snapshot(), call) == Some(found)
    {
      var fetch := fetches[f];
      found := if fetch.outcome.Succeeded? then fetch.outcome.value else [];
      if fetch.outcome.Succeeded? {
        if fetch.key.refreshIntervalSeconds > 0 {
          var expiresAt := fetch.startedAt + fetch.key.refreshIntervalSeconds * 1000;
          cache := cache[fetch.key := CacheEntry(expiresAt, Some(fetch.outcome.value), None)];
        }
      } else if fetch.key.refreshIntervalSeconds > 0 {
        cache := cache - {fetch.key};
      }
      fetches := fetches[f := fetch.(finished := true)];
    }

    method Handle(e: Event)
      modifies this
      ensures Snapshot() == Step(old(Snapshot()), e)
    {
      match e
      case Called(key, now) =>
        var _ := DiscoverBedrockModels(key, now);
      case Settles(f, result) => OnFetchSettled(f, result);
      case Continues(f) =>
        if f < |fetches| && !fetches[f].outcome.Running? && !fetches[f].finished {
          var _ := Continue(f);
        }
    }

    /** Any sequence of calls, replies and continuations ends in the state that the runs are about. */
    method HandleAll(events: seq<Event>)
      modifies this
      ensures Snapshot() == Run(old(Snapshot()), events)
    {
      var i := 0;
      while i < |events|
        invariant 0 <= i <= |events|
        invariant Run(Snapshot(), events[i..]) == Run(old(Snapshot()), events)
      {
        assert events[i..][0] == events[i] && events[i..][1..] == events[i + 1..];
        Handle(events[i]);
        i := i + 1;
      }
    }
  }
}
