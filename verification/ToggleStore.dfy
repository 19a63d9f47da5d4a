/** Switching active memory on and off per session (`createAsyncLock`, `readToggleStore`,
    `writeToggleStore`, `setSessionActiveMemoryDisabled` in extensions/active-memory/index.ts):
    a read-modify-write of one file behind a chain of promises, for every interleaving. */
module ToggleStore {
  import opened ObjectPrototype
  import opened Text
  import opened Wrappers

  // ----- the file

  datatype StoredValue = Malformed | Entry(disabled: bool, updatedAt: Option<int>)

  /** The store's file: absent, not JSON, JSON without a sessions object, or with one. */
  datatype File = Missing | Unparsable | NoSessions | Sessions(values: map<string, StoredValue>)

  /** The sessions in which active memory is off, with the time of the last change. */
  type Store = map<string, Option<int>>

  /** What a reader makes of the file. */
  function ReadStore(file: File): Store {
    if file.Sessions? then
      map key | key in file.values && !Blank(key) && key != PROTO && file.values[key].Entry? &&
                file.values[key].disabled ::
        file.values[key].updatedAt
    else map[]
  }

  /** `sessions[key] = entry`: assigning to `__proto__` adds no session. */
  function SetSession(sessions: Store, key: string, updatedAt: Option<int>): Store {
    if key == PROTO then sessions else sessions[key := updatedAt]
  }

  function RenderStore(store: Store): File {
    if store == map[] then NoSessions else Sessions(map key | key in store :: Entry(true, store[key]))
  }

  /** A store as it reads back after being written: no session has a blank key or is `__proto__`. */
  function Visible(store: Store): Store {
    map key | key in store && !Blank(key) && key != PROTO :: store[key]
  }

  lemma ReadRendered(store: Store)
    ensures ReadStore(RenderStore(store)) == Visible(store)
    ensures Visible(ReadStore(RenderStore(store))) == ReadStore(RenderStore(store))
  {
  }

  /** `readToggleStore` once the file has been read and parsed. */
  method ReadToggleStore(file: File) returns (store: Store)
    ensures store == ReadStore(file)
  {
    store := map[];
    if !file.Sessions? {
      return;
    }
    var todo := file.values.Keys;
    while todo != {}
      invariant todo <= file.values.Keys
      invariant store == map key | key in ReadStore(file) && key !in todo :: ReadStore(file)[key]
      decreases todo
    {
      var key :| key in todo;
      todo := todo - {key};
      var value := file.values[key];
      if Blank(key) || value.Malformed? {
        continue;
      }
      if value.disabled {
        store := SetSession(store, key, value.updatedAt);
      }
    }
  }

  // ----- the lock and the tasks behind it

  /** `setSessionActiveMemoryDisabled(sessionKey, disabled)` at the given time. */
  datatype Request = Request(sessionKey: string, disabled: bool, now: int)

  function Apply(store: Store, request: Request): Store {
    if request.disabled then SetSession(store, request.sessionKey, Some(request.now)) else store - {request.sessionKey}
  }

  /** Where a call is.  A call waits for the promise of the call before it, reads the file, writes
      it (or throws), and resolves its own promise in the `finally` block.  `readOk` tells whether
      the file could be read: a failing read counts as an empty store. */
  datatype Phase =
    | Queued
    | Entered
    | Loaded(store: Store, readOk: bool)
    | Ended(wrote: bool, readOk: bool)
    | Released(wrote: bool, readOk: bool)

  datatype Call = Call(request: Request, phase: Phase)

  datatype State = State(file: File, calls: seq<Call>)

  datatype Event =
    | Calls(request: Request)
    | Enters(i: nat)
    | Reads(i: nat, ok: bool)
    | Writes(i: nat)
    | Throws(i: nat)
    | Releases(i: nat)

  function SetPhase(s: State, i: nat, phase: Phase): State
    requires i < |s.calls|
  {
    s.(calls := s.calls[i := s.calls[i].(phase := phase)])
  }

  /** One step of the program.  An event whose moment has not come does nothing. */
  function Step(s: State, e: Event): State {
    match e
    case Calls(request) => s.(calls := s.calls + [Call(request, Queued)])
    case Enters(i) =>
      if i < |s.calls| && s.calls[i].phase.Queued? && (i == 0 || s.calls[i - 1].phase.Released?) then
        SetPhase(s, i, Entered)
      else s
    case Reads(i, ok) =>
      if i < |s.calls| && s.calls[i].phase.Entered? then
        SetPhase(s, i, Loaded(if ok then ReadStore(s.file) else map[], ok))
      else s
    case Writes(i) =>
      if i < |s.calls| && s.calls[i].phase.Loaded? then
        var store := Apply(s.calls[i].phase.store, s.calls[i].request);
        SetPhase(s, i, Ended(true, s.calls[i].phase.readOk)).(file := RenderStore(store))
      else s
    case Throws(i) =>
      if i < |s.calls| && s.calls[i].phase.Loaded? then SetPhase(s, i, Ended(false, s.calls[i].phase.readOk)) else s
    case Releases(i) =>
      if i < |s.calls| && s.calls[i].phase.Ended? then
        SetPhase(s, i, Released(s.calls[i].phase.wrote, s.calls[i].phase.readOk))
      else s
  }

  function Run(s: State, events: seq<Event>): State
    decreases |events|
  {
    if events == [] then s else Run(Step(s, events[0]), events[1..])
  }

  // ----- mutual exclusion in call order

  predicate Finished(call: Call) {
    call.phase.Ended? || call.phase.Released?
  }

  predicate InCriticalSection(call: Call) {
    call.phase.Entered? || call.phase.Loaded? || call.phase.Ended?
  }

  /** The calls before `turn` are through, the calls behind it have not begun. */
  ghost predicate InOrder(calls: seq<Call>, turn: nat) {
    && turn <= |calls|
    && (forall i :: 0 <= i < turn ==> calls[i].phase.Released?)
    && (forall i :: turn < i < |calls| ==> calls[i].phase.Queued?)
    && (turn < |calls| ==> !calls[turn].phase.Released?)
  }

  /** The store after the calls so far, as if they had run one after the other: every call that
      wrote applies its request to what it read. */
  function Folded(initial: Store, calls: seq<Call>): Store {
    if calls == [] then initial
    else
      var before, last := Folded(initial, calls[..|calls| - 1]), calls[|calls| - 1];
      if Finished(last) && last.phase.wrote then
        Visible(Apply(if last.phase.readOk then before else map[], last.request))
      else before
  }

  ghost predicate Inv(s: State, initial: Store, turn: nat) {
    && InOrder(s.calls, turn)
    && ReadStore(s.file) == Folded(initial, s.calls)
    && (turn < |s.calls| && s.calls[turn].phase.Loaded? ==>
          s.calls[turn].phase.store == if s.calls[turn].phase.readOk then ReadStore(s.file) else map[])
  }

  lemma {:induction false} FoldedUnfinished(initial: Store, calls: seq<Call>, n: nat)
    requires n <= |calls| && forall i :: n <= i < |calls| ==> !Finished(calls[i])
    ensures Folded(initial, calls) == Folded(initial, calls[..n])
    decreases |calls|
  {
    if n == |calls| {
      assert calls[..n] == calls;
    } else {
      var init := calls[..|calls| - 1];
      assert init[..n] == calls[..n];
      FoldedUnfinished(initial, init, n);
    }
  }

  /** The fold only looks at which calls wrote, not at whether they have been released. */
  lemma {:induction false} FoldedReleased(initial: Store, a: seq<Call>, b: seq<Call>)
    requires |a| == |b| && forall i :: 0 <= i < |a| ==>
                                         a[i].request == b[i].request && (Finished(a[i]) <==> Finished(b[i])) &&
                                         (Finished(a[i]) ==> a[i].phase.wrote == b[i].phase.wrote &&
                                                             a[i].phase.readOk == b[i].phase.readOk)
    ensures Folded(initial, a) == Folded(initial, b)
    decreases |a|
  {
    if a != [] {
      FoldedReleased(initial, a[..|a| - 1], b[..|b| - 1]);
    }
  }

  /** When the call whose turn it is ends, the fold takes its request in. */
  lemma FoldedEnded(initial: Store, calls: seq<Call>, turn: nat, phase: Phase)
    requires InOrder(calls, turn) && turn < |calls| && !Finished(calls[turn]) && phase.Ended?
    ensures var calls' := calls[turn := calls[turn].(phase := phase)];
            Folded(initial, calls') ==
            if phase.wrote then Visible(Apply(if phase.readOk then Folded(initial, calls)
                                              else map[], calls[turn].request))
            else Folded(initial, calls)
  {
    var calls' := calls[turn := calls[turn].(phase := phase)];
    FoldedUnfinished(initial, calls, turn);
    FoldedUnfinished(initial, calls', turn + 1);
    assert calls'[..turn + 1][..turn] == calls[..turn];
  }

  lemma StepKeepsInv(s: State, e: Event, initial: Store, turn: nat) returns (turn': nat)
    requires Inv(s, initial, turn)
    ensures Inv(Step(s, e), initial, turn') && turn <= turn'
  {
    turn' := turn;
    match e
    case Calls(request) =>
      CallKeepsInv(s, request, initial, turn);
    case Enters(i) =>
      EnterKeepsInv(s, i, initial, turn);
    case Reads(i, ok) =>
      ReadKeepsInv(s, i, ok, initial, turn);
    case Writes(i) =>
      EndKeepsInv(s, e, initial, turn);
    case Throws(i) =>
      EndKeepsInv(s, e, initial, turn);
    case Releases(i) =>
      turn' := ReleaseKeepsInv(s, i, initial, turn);
  }

  lemma CallKeepsInv(s: State, request: Request, initial: Store, turn: nat)
    requires Inv(s, initial, turn)
    ensures Inv(Step(s, Calls(request)), initial, turn)
  {
    FoldedCalled(initial, s.calls, Call(request, Queued));
    CalledInOrder(s.calls, Call(request, Queued), turn);
  }

  /** A call that waits for its turn changes neither the fold nor the order. */
  lemma FoldedCalled(initial: Store, calls: seq<Call>, call: Call)
    requires !Finished(call)
    ensures Folded(initial, calls + [call]) == Folded(initial, calls)
  {
    assert (calls + [call])[..|calls|] == calls;
  }

  lemma CalledInOrder(calls: seq<Call>, call: Call, turn: nat)
    requires InOrder(calls, turn) && call.phase.Queued?
    ensures InOrder(calls + [call], turn)
  {
  }

  lemma EnterKeepsInv(s: State, i: nat, initial: Store, turn: nat)
    requires Inv(s, initial, turn)
    ensures Inv(Step(s, Enters(i)), initial, turn)
  {
    FoldedReleased(initial, s.calls, Step(s, Enters(i)).calls);
  }

  lemma ReadKeepsInv(s: State, i: nat, ok: bool, initial: Store, turn: nat)
    requires Inv(s, initial, turn)
    ensures Inv(Step(s, Reads(i, ok)), initial, turn)
  {
    FoldedReleased(initial, s.calls, Step(s, Reads(i, ok)).calls);
  }

  lemma ReleaseKeepsInv(s: State, i: nat, initial: Store, turn: nat) returns (turn': nat)
    requires Inv(s, initial, turn)
    ensures Inv(Step(s, Releases(i)), initial, turn') && turn <= turn'
  {
    FoldedReleased(initial, s.calls, Step(s, Releases(i)).calls);
    turn' := if Step(s, Releases(i)) == s then turn else turn + 1;
  }

  lemma EndKeepsInv(s: State, e: Event, initial: Store, turn: nat)
    requires Inv(s, initial, turn) && (e.Writes? || e.Throws?)
    ensures Inv(Step(s, e), initial, turn)
  {
    if Step(s, e) != s {
      assert e.i == turn;
      FoldedEnded(initial, s.calls, turn, Step(s, e).calls[turn].phase);
      ReadRendered(Apply(s.calls[turn].phase.store, s.calls[turn].request));
    }
  }

  lemma {:induction false} RunKeepsInv(s: State, events: seq<Event>, initial: Store, turn: nat) returns (turn': nat)
    requires Inv(s, initial, turn)
    ensures Inv(Run(s, events), initial, turn')
    decreases |events|
  {
    turn' := turn;
    if events != [] {
      turn' := StepKeepsInv(s, events[0], initial, turn);
      turn' := RunKeepsInv(Step(s, events[0]), events[1..], initial, turn');
    }
  }

  function Initial(file: File): State {
    State(file, [])
  }

  /** In every run, at most one call is between taking and releasing the lock, and calls get it in
      the order in which they were made. */
  lemma MutualExclusionInOrder(file: File, events: seq<Event>)
    ensures var calls := Run(Initial(file), events).calls;
            && (forall i, j :: 0 <= i < j < |calls| && InCriticalSection(calls[i]) ==> !InCriticalSection(calls[j]))
            && (forall i, j :: 0 <= i < j < |calls| && !calls[j].phase.Queued? ==> calls[i].phase.Released?)
  {
    var turn := RunKeepsInv(Initial(file), events, ReadStore(file), 0);
  }

  /** In every run, the file always reads as the fold, in call order, of the calls that wrote. */
  lemma StoreIsFold(file: File, events: seq<Event>)
    ensures ReadStore(Run(Initial(file), events).file) == Folded(ReadStore(file), Run(Initial(file), events).calls)
  {
    var turn := RunKeepsInv(Initial(file), events, ReadStore(file), 0);
  }

  // ----- no lost update, as long as the file can be read

  /** The plain fold of the successful requests. */
  function PlainFold(initial: Store, calls: seq<Call>): Store {
    if calls == [] then initial
    else
      var before, last := PlainFold(initial, calls[..|calls| - 1]), calls[|calls| - 1];
      if Finished(last) && last.phase.wrote then Visible(Apply(before, last.request)) else before
  }

  lemma {:induction false} PlainFoldIsVisible(initial: Store, calls: seq<Call>)
    requires Visible(initial) == initial
    ensures Visible(PlainFold(initial, calls)) == PlainFold(initial, calls)
    decreases |calls|
  {
    if calls != [] {
      PlainFoldIsVisible(initial, calls[..|calls| - 1]);
    }
  }

  /** A call that could not read the file and writes nevertheless keeps the other sessions exactly
      when there were none: `readToggleStore` turns every read error into an empty store. */
  lemma FailedReadLosesExactlyTheOthers(store: Store, request: Request)
    requires Visible(store) == store
    ensures Visible(Apply(map[], request)) == Visible(Apply(store, request)) <==> store.Keys <= {request.sessionKey}
  {
    var kept, plain := Visible(Apply(map[], request)), Visible(Apply(store, request));
    forall key | key in store && key != request.sessionKey
      ensures key in plain && key !in kept
    {
      assert key in Visible(store);
    }
    if store.Keys <= {request.sessionKey} {
      assert kept.Keys == plain.Keys;
    }
  }

  /** A call that wrote without having read the file, at a time when no other session was off. */
  predicate LosesNothing(initial: Store, calls: seq<Call>, i: nat)
    requires i < |calls|
  {
    Finished(calls[i]) && calls[i].phase.wrote && !calls[i].phase.readOk ==>
      PlainFold(initial, calls[..i]).Keys <= {calls[i].request.sessionKey}
  }

  lemma NextFoldIsPlain(initial: Store, calls: seq<Call>, i: nat)
    requires Visible(initial) == initial && i < |calls| && Folded(initial, calls[..i]) == PlainFold(initial, calls[..i])
    ensures Folded(initial, calls[..i + 1]) == PlainFold(initial, calls[..i + 1]) <==> LosesNothing(initial, calls, i)
  {
    assert calls[..i + 1][..i] == calls[..i] && calls[..i + 1][i] == calls[i];
    PlainFoldIsVisible(initial, calls[..i]);
    FailedReadLosesExactlyTheOthers(PlainFold(initial, calls[..i]), calls[i].request);
  }

  lemma {:induction false} FoldedIsPlain(initial: Store, calls: seq<Call>, n: nat)
    requires Visible(initial) == initial && n <= |calls| && forall i :: 0 <= i < n ==> LosesNothing(initial, calls, i)
    ensures Folded(initial, calls[..n]) == PlainFold(initial, calls[..n])
    decreases n
  {
    if n > 0 {
      FoldedIsPlain(initial, calls, n - 1);
      NextFoldIsPlain(initial, calls, n - 1);
    }
  }

  /** No update is lost in a run whose writing calls could read the file or had nothing to lose. */
  lemma NoLostUpdate(file: File, events: seq<Event>)
    requires var calls := Run(Initial(file), events).calls;
             forall i :: 0 <= i < |calls| ==> LosesNothing(ReadStore(file), calls, i)
    ensures ReadStore(Run(Initial(file), events).file) == PlainFold(ReadStore(file), Run(Initial(file), events).calls)
  {
    var calls := Run(Initial(file), events).calls;
    StoreIsFold(file, events);
    FoldedIsPlain(ReadStore(file), calls, |calls|);
    assert calls[..|calls|] == calls;
  }

  /** After each of the calls of a run the store is the fold of the requests so far, exactly when no
      call of the run overwrote another session that it could not read. */
  lemma NoLostUpdateExactly(file: File, events: seq<Event>)
    ensures var initial, calls := ReadStore(file), Run(Initial(file), events).calls;
            (forall n :: 0 <= n <= |calls| ==> Folded(initial, calls[..n]) == PlainFold(initial, calls[..n])) <==>
            forall i :: 0 <= i < |calls| ==> LosesNothing(initial, calls, i)
  {
    FoldsPlainlyExactly(ReadStore(file), Run(Initial(file), events).calls);
  }

  lemma FoldsPlainlyExactly(initial: Store, calls: seq<Call>)
    requires Visible(initial) == initial
    ensures (forall n :: 0 <= n <= |calls| ==> Folded(initial, calls[..n]) == PlainFold(initial, calls[..n])) <==>
            forall i :: 0 <= i < |calls| ==> LosesNothing(initial, calls, i)
  {
    if forall i :: 0 <= i < |calls| ==> LosesNothing(initial, calls, i) {
      forall n | 0 <= n <= |calls|
        ensures Folded(initial, calls[..n]) == PlainFold(initial, calls[..n])
      {
        FoldedIsPlain(initial, calls, n);
      }
    }
    if forall n :: 0 <= n <= |calls| ==> Folded(initial, calls[..n]) == PlainFold(initial, calls[..n]) {
      forall i | 0 <= i < |calls|
        ensures LosesNothing(initial, calls, i)
      {
        assert Folded(initial, calls[..i + 1]) == PlainFold(initial, calls[..i + 1]);
        NextFoldIsPlain(initial, calls, i);
      }
    }
  }

  // ----- what the file holds after a run, call by call

  predicate Wrote(call: Call) {
    (call.phase.Ended? || call.phase.Released?) && call.phase.wrote
  }

  /** The last call that wrote for a session, or -1. */
  function LastWriteFor(calls: seq<Call>, key: string): (i: int)
    ensures -1 <= i < |calls|
    ensures i >= 0 ==> Wrote(calls[i]) && calls[i].request.sessionKey == key
    ensures forall j :: i < j < |calls| ==> !(Wrote(calls[j]) && calls[j].request.sessionKey == key)
  {
    if calls == [] then -1
    else if Wrote(calls[|calls| - 1]) && calls[|calls| - 1].request.sessionKey == key then |calls| - 1
    else LastWriteFor(calls[..|calls| - 1], key)
  }

  /** The last call that wrote without having been able to read the file, or -1. */
  function LastBlindWrite(calls: seq<Call>): (i: int)
    ensures -1 <= i < |calls|
    ensures i >= 0 ==> Wrote(calls[i]) && !calls[i].phase.readOk
    ensures forall j :: i < j < |calls| ==> !(Wrote(calls[j]) && !calls[j].phase.readOk)
  {
    if calls == [] then -1
    else if Wrote(calls[|calls| - 1]) && !calls[|calls| - 1].phase.readOk then |calls| - 1
    else LastBlindWrite(calls[..|calls| - 1])
  }

  /** What becomes of a session when the call at `w` was the last to write for it, or none was. */
  ghost predicate IsAsLastWritten(initial: Store, calls: seq<Call>, w: int, key: string, store: Store)
    requires w < |calls|
  {
    if w >= 0 then
      (key in store <==> calls[w].request.disabled) && (key in store ==> store[key] == Some(calls[w].request.now))
    else (key in store <==> key in initial) && (key in store ==> store[key] == initial[key])
  }

  lemma {:induction false} FoldedAt(initial: Store, calls: seq<Call>, key: string)
    requires !Blank(key) && key != "__proto__"
    ensures var w, b := LastWriteFor(calls, key), LastBlindWrite(calls);
            IsAsLastWritten(if b >= 0 then map[] else initial, calls, if w >= b then w else -1, key,
                            Folded(initial, calls))
    decreases |calls|
  {
    if calls != [] {
      FoldedAt(initial, calls[..|calls| - 1], key);
    }
  }

  lemma {:induction false} PlainFoldAt(initial: Store, calls: seq<Call>, key: string)
    requires !Blank(key) && key != "__proto__"
    ensures IsAsLastWritten(initial, calls, LastWriteFor(calls, key), key, PlainFold(initial, calls))
    decreases |calls|
  {
    if calls != [] {
      PlainFoldAt(initial, calls[..|calls| - 1], key);
    }
  }

  /** After any run a session is in the file exactly when the last call that wrote for it switched
      active memory off, or none did and it was there before; its time is that call's.  What was there
      before the last write that could not read the file does not count. */
  lemma SessionAfterRun(file: File, events: seq<Event>, key: string)
    requires !Blank(key) && key != "__proto__"
    ensures var s := Run(Initial(file), events);
            var w, b := LastWriteFor(s.calls, key), LastBlindWrite(s.calls);
            IsAsLastWritten(if b >= 0 then map[] else ReadStore(file), s.calls, if w >= b then w else -1, key,
                            ReadStore(s.file))
  {
    StoreIsFold(file, events);
    FoldedAt(ReadStore(file), Run(Initial(file), events).calls, key);
  }

  /** In a run that loses nothing the last request for a session decides. */
  lemma LastRequestDecides(file: File, events: seq<Event>, key: string)
    requires !Blank(key) && key != "__proto__"
    requires var calls := Run(Initial(file), events).calls;
             forall i :: 0 <= i < |calls| ==> LosesNothing(ReadStore(file), calls, i)
    ensures var s := Run(Initial(file), events);
            IsAsLastWritten(ReadStore(file), s.calls, LastWriteFor(s.calls, key), key, ReadStore(s.file))
  {
    NoLostUpdate(file, events);
    PlainFoldAt(ReadStore(file), Run(Initial(file), events).calls, key);
  }

  /** What is read from the file: the sessions that are switched off, but none with a blank key or
      named `__proto__`. */
  lemma ReadExactly(file: File, key: string)
    ensures key in ReadStore(file) <==>
            && file.Sessions? && key in file.values && !Blank(key) && key != "__proto__"
            && file.values[key].Entry? && file.values[key].disabled
    ensures key in ReadStore(file) ==> ReadStore(file)[key] == file.values[key].updatedAt
  {
  }

  /** A write by a call that could read the file changes one session. */
  lemma WriteLeavesOthers(file: File, events: seq<Event>, i: nat, key: string)
    requires var calls := Run(Initial(file), events).calls;
             i < |calls| && calls[i].phase.Loaded? && calls[i].phase.readOk && calls[i].request.sessionKey != key
    ensures var s := Run(Initial(file), events);
            var before, after := ReadStore(s.file), ReadStore(Step(s, Writes(i)).file);
            (key in after <==> key in before) && (key in before ==> after[key] == before[key])
  {
    var s := Run(Initial(file), events);
    var turn := RunKeepsInv(Initial(file), events, ReadStore(file), 0);
    assert i == turn;
    ReadRendered(Apply(s.calls[i].phase.store, s.calls[i].request));
    StoredIsVisible(s.file);
  }

  lemma StoredIsVisible(file: File)
    ensures Visible(ReadStore(file)) == ReadStore(file)
  {
  }

  const LOSING_RUN := [Calls(Request("a", true, 1)), Enters(0), Reads(0, true), Writes(0), Releases(0),
                       Calls(Request("b", true, 2)), Enters(1), Reads(1, false), Writes(1)]

  /** So an update can be lost: one unreadable moment between two requests. */
  lemma UpdateLostByFailedRead()
    ensures ReadStore(Run(Initial(Missing), LOSING_RUN).file) == map["b" := Some(2)]
  {
    RunByHand(LOSING_RUN);
    StoreIsFold(Missing, LOSING_RUN);
    LastOneOnly(Run(Initial(Missing), LOSING_RUN).calls[0]);
  }

  lemma LastOneOnly(first: Call)
    ensures Folded(map[], [first, Call(Request("b", true, 2), Ended(true, false))]) == map["b" := Some(2)]
  {
    assert [first, Call(Request("b", true, 2), Ended(true, false))][..1] == [first];
    assert !Blank("b") by { assert !IsSpace("b"[0]); }
  }

  lemma RunByHand(events: seq<Event>)
    requires events == LOSING_RUN
    ensures Run(Initial(Missing), events).calls ==
            [Call(Request("a", true, 1), Released(true, true)), Call(Request("b", true, 2), Ended(true, false))]
  {
    var a, b := Request("a", true, 1), Request("b", true, 2);
    var f := RenderStore(Apply(map[], a));
    var s0 := Initial(Missing);
    assert Step(Step(s0, events[0]), events[1]) == State(Missing, [Call(a, Entered)]);
    var s2 := State(Missing, [Call(a, Loaded(map[], true))]);
    assert Step(State(Missing, [Call(a, Entered)]), events[2]) == s2;
    var s4 := State(f, [Call(a, Released(true, true))]);
    assert Step(Step(s2, events[3]), events[4]) == s4;
    var s6 := State(f, [Call(a, Released(true, true)), Call(b, Entered)]);
    assert Step(Step(s4, events[5]), events[6]) == s6;
    var s7 := State(f, [Call(a, Released(true, true)), Call(b, Loaded(map[], false))]);
    assert Step(s6, events[7]) == s7;
    assert Step(s7, events[8]).calls == [Call(a, Released(true, true)), Call(b, Ended(true, false))];
    assert events[1..][1..] == events[2..] && events[2..][1..] == events[3..] && events[3..][1..][1..] == events[5..];
    assert events[5..][1..][1..] == events[7..] && events[7..][1..] == events[8..] && events[8..][1..] == [];
    assert Run(s0, events) == Run(Step(Step(s0, events[0]), events[1]), events[2..]);
    assert Run(s2, events[3..]) == Run(s4, events[5..]) == Run(s6, events[7..]) == Run(s7, events[8..]);
    assert Run(s7, events[8..]) == Step(s7, events[8]);
  }

  // ----- readers without the lock

  lemma {:induction false} FinishedForGood(s: State, events: seq<Event>, i: nat)
    requires i < |s.calls| && Finished(s.calls[i])
    ensures var calls := Run(s, events).calls;
            i < |calls| && Finished(calls[i]) && calls[i].request == s.calls[i].request &&
            calls[i].phase.wrote == s.calls[i].phase.wrote && calls[i].phase.readOk == s.calls[i].phase.readOk
    decreases |events|
  {
    if events != [] {
      FinishedForGood(Step(s, events[0]), events[1..], i);
    }
  }

  /** A reader that does not take the lock sees, at any moment of a run, the fold of the first few
      calls of that run, never a half-done or reordered one. */
  lemma ReaderSeesPrefix(file: File, events: seq<Event>, later: seq<Event>) returns (n: nat)
    ensures var seen, calls := ReadStore(Run(Initial(file), events).file), Run(Run(Initial(file), events), later).calls;
            n <= |calls| && seen == Folded(ReadStore(file), calls[..n])
  {
    var s := Run(Initial(file), events);
    var turn := RunKeepsInv(Initial(file), events, ReadStore(file), 0);
    n := if turn < |s.calls| && Finished(s.calls[turn]) then turn + 1 else turn;
    FoldedUnfinished(ReadStore(file), s.calls, n);
    var calls := Run(s, later).calls;
    forall i | 0 <= i < n
      ensures i < |calls| && Finished(calls[i]) && calls[i].request == s.calls[i].request
      ensures calls[i].phase.wrote == s.calls[i].phase.wrote && calls[i].phase.readOk == s.calls[i].phase.readOk
    {
      FinishedForGood(s, later, i);
    }
    if n > 0 {
      assert n - 1 < |calls|;
    }
    FoldedReleased(ReadStore(file), s.calls[..n], calls[..n]);
  }

  // ----- the lock is always released

  lemma {:induction false} RunConcat(s: State, a: seq<Event>, b: seq<Event>)
    ensures Run(s, a + b) == Run(Run(s, a), b)
    decreases |a|
  {
    if a == [] {
      assert a + b == b;
    } else {
      assert (a + b)[0] == a[0] && (a + b)[1..] == a[1..] + b;
      RunConcat(Step(s, a[0]), a[1..], b);
    }
  }

  /** The remaining steps of a call whose task throws. */
  function ThrowingSteps(i: nat): seq<Event> {
    [Enters(i), Reads(i, false), Throws(i), Releases(i)]
  }

  lemma RunFour(s: State, a: Event, b: Event, c: Event, d: Event)
    ensures Run(s, [a, b, c, d]) == Step(Step(Step(Step(s, a), b), c), d)
  {
    assert [a, b, c, d][1..] == [b, c, d] && [b, c, d][1..] == [c, d] && [c, d][1..] == [d] && [d][1..] == [];
    assert Run(s, [a, b, c, d]) == Run(Step(s, a), [b, c, d]) == Run(Step(Step(s, a), b), [c, d]);
    var s3 := Step(Step(Step(s, a), b), c);
    assert Run(Step(Step(s, a), b), [c, d]) == Run(s3, [d]) == Run(Step(s3, d), []);
  }

  lemma ThrowingCallReleases(s: State, initial: Store, turn: nat)
    requires Inv(s, initial, turn) && turn < |s.calls|
    ensures Inv(Run(s, ThrowingSteps(turn)), initial, turn + 1) && |Run(s, ThrowingSteps(turn)).calls| == |s.calls|
  {
    var events := ThrowingSteps(turn);
    var s4 := Run(s, events);
    RunFour(s, events[0], events[1], events[2], events[3]);
    assert s4.calls[turn].phase.Released?;
    var t := RunKeepsInv(s, events, initial, turn);
    assert |s4.calls| == |s.calls|;
    assert forall i :: turn < i < |s.calls| ==> s4.calls[i] == s.calls[i];
    assert turn + 1 < |s4.calls| ==> s4.calls[turn + 1].phase.Queued?;
  }

  /** From every reachable state all calls made so far can get through, even if every task that has
      not ended yet throws: nobody holds the lock forever. */
  lemma {:induction false} EveryCallGetsThrough(s: State, initial: Store, turn: nat) returns (rest: seq<Event>)
    requires Inv(s, initial, turn)
    ensures |Run(s, rest).calls| == |s.calls| && forall call :: call in Run(s, rest).calls ==> call.phase.Released?
    ensures forall e :: e in rest ==> !e.Writes? && !e.Calls?
    decreases |s.calls| - turn
  {
    rest := [];
    if turn < |s.calls| {
      var steps := ThrowingSteps(turn);
      ThrowingCallReleases(s, initial, turn);
      rest := EveryCallGetsThrough(Run(s, steps), initial, turn + 1);
      RunConcat(s, steps, rest);
      rest := steps + rest;
    }
  }
}

module ToggleStoreProgram {
  import opened ToggleStore
  import opened Wrappers

  /** The file of one path with the chain of promises that guards it. */
  class GuardedStore {
    var file: File
    var calls: seq<Call>

    function Snapshot(): State
      reads this
    {
      State(file, calls)
    }

    constructor (file: File)
      ensures Snapshot() == State(file, [])
    {
      this.file := file;
      calls := [];
    }

    /** The synchronous head of `withLock`: the call's own promise becomes the end of the chain. */
    method SetSessionActiveMemoryDisabled(request: Request)
      modifies this`calls
      ensures Snapshot() == Step(old(Snapshot()), Calls(request))
    {
      calls := calls + [Call(request, Queued)];
    }

    /** `await previous` is over. */
    method Enter(i: nat)
      requires i < |calls| && calls[i].phase.Queued? && (i == 0 || calls[i - 1].phase.Released?)
      modifies this`calls
      ensures Snapshot() == Step(old(Snapshot()), Enters(i))
    {
      calls := calls[i := calls[i].(phase := Entered)];
    }

    /** The task's first half: `readToggleStore`, to which every failure is an empty store. */
    method Load(i: nat, ok: bool)
      requires i < |calls| && calls[i].phase.Entered?
      modifies this`calls
      ensures Snapshot() == Step(old(Snapshot()), Reads(i, ok))
    {
      var store: Store := map[];
      if ok {
        store := ReadToggleStore(file);
      }
      calls := calls[i := calls[i].(phase := Loaded(store, ok))];
    }

    /** Its second half: the copied sessions are changed and the file is replaced. */
    method Store(i: nat)
      requires i < |calls| && calls[i].phase.Loaded?
      modifies this
      ensures Snapshot() == Step(old(Snapshot()), Writes(i))
    {
      var sessions, request := calls[i].phase.store, calls[i].request;
      if request.disabled {
        sessions := SetSession(sessions, request.sessionKey, Some(request.now));
      } else {
        sessions := sessions - {request.sessionKey};
      }
      file := RenderStore(sessions);
      calls := calls[i := calls[i].(phase := Ended(true, calls[i].phase.readOk))];
    }

    /** The task ends without having written. */
    method Fail(i: nat)
      requires i < |calls| && calls[i].phase.Loaded?
      modifies this`calls
      ensures Snapshot() == Step(old(Snapshot()), Throws(i))
    {
      calls := calls[i := calls[i].(phase := Ended(false, calls[i].phase.readOk))];
    }

    /** The `finally` block. */
    method Release(i: nat)
      requires i < |calls| && calls[i].phase.Ended?
      modifies this`calls
      ensures Snapshot() == Step(old(Snapshot()), Releases(i))
    {
      calls := calls[i := calls[i].(phase := Released(calls[i].phase.wrote, calls[i].phase.readOk))];
    }

    method Handle(e: Event)
      modifies this
      ensures Snapshot() == Step(old(Snapshot()), e)
    {
      match e
      case Calls(request) => SetSessionActiveMemoryDisabled(request);
      case Enters(i) =>
        if i < |calls| && calls[i].phase.Queued? && (i == 0 || calls[i - 1].phase.Released?) {
          Enter(i);
        }
      case Reads(i, ok) =>
        if i < |calls| && calls[i].phase.Entered? {
          Load(i, ok);
        }
      case Writes(i) =>
        if i < |calls| && calls[i].phase.Loaded? {
          Store(i);
        }
      case Throws(i) =>
        if i < |calls| && calls[i].phase.Loaded? {
          Fail(i);
        }
      case Releases(i) =>
        if i < |calls| && calls[i].phase.Ended? {
          Release(i);
        }
    }

    /** Any interleaving of calls ends in the state that the runs are about. */
    method HandleAll(events: seq<Event>)
      modifies this
      ensures Snapshot() == Run(old(Snapshot()), events)
    {
      var i := 0;
      while i < |events|
        invariant 0 <= i <= |events|
        invariant Run(Snapshot(), events[i..]) == Run(old(Snapshot()), events)
      {
        assert events[i..][0] == events[i] && events[i..][1..] == events[i + 1..];
        Handle(events[i]);
        i := i + 1;
      }
    }
  }
}
