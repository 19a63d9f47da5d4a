/** Mapping a list with a bounded number of workers that share a counter (`mapConcurrent` in
    scripts/update-clawtributors.ts), for every interleaving of the workers. */
module WorkerPool {
  import opened Wrappers

  /** What the mapper comes to for an item: a value, or nothing if it throws. */
  type Mapper = nat -> Option<int>

  datatype Worker = Idle | Working(index: nat) | Done | Crashed(index: nat)

  datatype State = State(nextIndex: nat, workers: seq<Worker>, results: seq<Option<int>>)

  /** `Turn(w)`: worker `w` looks at the counter; `Mapped(w)`: its mapper settles. */
  datatype Event = Turn(w: nat) | Mapped(w: nat)

  function Initial(items: nat, limit: int): State {
    var count := if limit < items then limit else items;
    State(0, seq(if count < 1 then 1 else count, _ => Idle), seq(items, _ => None))
  }

  /** One step; reading the counter and counting up is a single step, for nothing is awaited in
      between. */
  function Step(mapper: Mapper, s: State, e: Event): State {
    if e.w >= |s.workers| then s
    else
      match (e, s.workers[e.w])
      case (Turn(w), Idle) =>
        if s.nextIndex < |s.results| then
          s.(workers := s.workers[w := Working(s.nextIndex)], nextIndex := s.nextIndex + 1)
        else s.(workers := s.workers[w := Done])
      case (Mapped(w), Working(index)) =>
        if mapper(index).None? then s.(workers := s.workers[w := Crashed(index)])
        else
          var results := if index < |s.results| then s.results[index := mapper(index)] else s.results;
          s.(workers := s.workers[w := Idle], results := results)
      case _ => s
  }

  function Run(mapper: Mapper, s: State, events: seq<Event>): State
    decreases |events|
  {
    if events == [] then s else Run(mapper, Step(mapper, s, events[0]), events[1..])
  }

  predicate Holds(worker: Worker, index: nat) {
    (worker.Working? || worker.Crashed?) && worker.index == index
  }

  /** Every index below the counter is held by exactly one worker or has its own result, and no
      other index is touched. */
  ghost predicate Inv(mapper: Mapper, s: State) {
    && s.nextIndex <= |s.results|
    && (forall w :: 0 <= w < |s.workers| && (s.workers[w].Working? || s.workers[w].Crashed?) ==>
                      s.workers[w].index < s.nextIndex && s.results[s.workers[w].index].None?)
    && (forall v, w :: 0 <= v < w < |s.workers| && (s.workers[v].Working? || s.workers[v].Crashed?) ==>
                         !Holds(s.workers[w], s.workers[v].index))
    && (forall w :: 0 <= w < |s.workers| && s.workers[w].Crashed? ==> mapper(s.workers[w].index).None?)
    && (forall i :: 0 <= i < |s.results| && s.results[i].Some? ==> i < s.nextIndex && s.results[i] == mapper(i))
    && (forall i :: 0 <= i < s.nextIndex && s.results[i].None? ==>
                      exists w :: 0 <= w < |s.workers| && Holds(s.workers[w], i))
    && (forall w :: 0 <= w < |s.workers| && s.workers[w].Done? ==> s.nextIndex == |s.results|)
  }

  /** A worker claims the next index. */
  lemma ClaimKeepsInv(mapper: Mapper, s: State, w: nat)
    requires Inv(mapper, s) && w < |s.workers| && s.workers[w].Idle? && s.nextIndex < |s.results|
    ensures Inv(mapper, Step(mapper, s, Turn(w)))
  {
    var s' := Step(mapper, s, Turn(w));
    NextIsUnclaimed(mapper, s);
    assert s' == State(s.nextIndex + 1, s.workers[w := Working(s.nextIndex)], s.results);
    forall i | 0 <= i < s'.nextIndex && s'.results[i].None?
      ensures exists v :: 0 <= v < |s'.workers| && Holds(s'.workers[v], i)
    {
      if i < s.nextIndex {
        StillHeld(mapper, s, w, i, s'.workers);
      } else {
        assert Holds(s'.workers[w], i);
      }
    }
  }

  lemma NextIsUnclaimed(mapper: Mapper, s: State)
    requires Inv(mapper, s) && s.nextIndex < |s.results|
    ensures s.results[s.nextIndex].None? && forall v :: 0 <= v < |s.workers| ==> !Holds(s.workers[v], s.nextIndex)
  {
  }

  /** An index that a worker other than `w` holds is still held when only `w` has changed. */
  lemma StillHeld(mapper: Mapper, s: State, w: nat, i: nat, workers: seq<Worker>)
    requires Inv(mapper, s) && w < |s.workers| == |workers| && workers == s.workers[w := workers[w]]
    requires i < s.nextIndex && s.results[i].None? && !Holds(s.workers[w], i)
    ensures exists v :: 0 <= v < |workers| && Holds(workers[v], i)
  {
    var v :| 0 <= v < |s.workers| && Holds(s.workers[v], i);
    assert Holds(workers[v], i);
  }

  /** A worker finds nothing left to claim. */
  lemma DoneKeepsInv(mapper: Mapper, s: State, w: nat)
    requires Inv(mapper, s) && w < |s.workers| && s.workers[w].Idle? && s.nextIndex == |s.results|
    ensures Inv(mapper, Step(mapper, s, Turn(w)))
  {
    var s' := Step(mapper, s, Turn(w));
    forall v, i | 0 <= v < |s.workers|
      ensures Holds(s'.workers[v], i) == Holds(s.workers[v], i)
    {
    }
  }

  /** A mapper throws: its worker ends, still holding the index. */
  lemma ThrowKeepsInv(mapper: Mapper, s: State, w: nat)
    requires Inv(mapper, s) && w < |s.workers| && s.workers[w].Working? && mapper(s.workers[w].index).None?
    ensures Inv(mapper, Step(mapper, s, Mapped(w)))
  {
    var s' := Step(mapper, s, Mapped(w));
    forall v, i | 0 <= v < |s.workers|
      ensures Holds(s'.workers[v], i) == Holds(s.workers[v], i)
    {
    }
  }

  /** A mapper delivers: its result lands at the index its worker held, and the worker is free. */
  lemma DeliveryKeepsInv(mapper: Mapper, s: State, w: nat)
    requires Inv(mapper, s) && w < |s.workers| && s.workers[w].Working? && mapper(s.workers[w].index).Some?
    ensures Inv(mapper, Step(mapper, s, Mapped(w)))
  {
    var s', index := Step(mapper, s, Mapped(w)), s.workers[w].index;
    assert Holds(s.workers[w], index);
    HeldByOne(mapper, s, w);
    assert s' == State(s.nextIndex, s.workers[w := Idle], s.results[index := mapper(index)]);
    forall i | 0 <= i < s'.nextIndex && s'.results[i].None?
      ensures exists v :: 0 <= v < |s'.workers| && Holds(s'.workers[v], i)
    {
      StillHeld(mapper, s, w, i, s'.workers);
    }
  }

  lemma HeldByOne(mapper: Mapper, s: State, w: nat)
    requires Inv(mapper, s) && w < |s.workers| && s.workers[w].Working?
    ensures forall v :: 0 <= v < |s.workers| && v != w ==> !Holds(s.workers[v], s.workers[w].index)
  {
    assert Holds(s.workers[w], s.workers[w].index);
  }

  lemma StepKeepsInv(mapper: Mapper, s: State, e: Event)
    requires Inv(mapper, s)
    ensures Inv(mapper, Step(mapper, s, e)) && |Step(mapper, s, e).workers| == |s.workers| &&
            |Step(mapper, s, e).results| == |s.results|
    ensures s.nextIndex <= Step(mapper, s, e).nextIndex
  {
    if e.w < |s.workers| {
      if e.Turn? && s.workers[e.w].Idle? {
        if s.nextIndex < |s.results| {
          ClaimKeepsInv(mapper, s, e.w);
        } else {
          DoneKeepsInv(mapper, s, e.w);
        }
      } else if e.Mapped? && s.workers[e.w].Working? {
        if mapper(s.workers[e.w].index).None? {
          ThrowKeepsInv(mapper, s, e.w);
        } else {
          DeliveryKeepsInv(mapper, s, e.w);
        }
      }
    }
  }

  lemma {:induction false} RunKeepsInv(mapper: Mapper, s: State, events: seq<Event>)
    requires Inv(mapper, s)
    ensures Inv(mapper, Run(mapper, s, events)) && |Run(mapper, s, events).workers| == |s.workers|
    ensures |Run(mapper, s, events).results| == |s.results|
    decreases |events|
  {
    if events != [] {
      StepKeepsInv(mapper, s, events[0]);
      RunKeepsInv(mapper, Step(mapper, s, events[0]), events[1..]);
    }
  }

  /** At any moment of any run, exactly the indices below the counter have been claimed, each by one
      worker that still holds it or has delivered its result. */
  lemma ClaimedOnce(mapper: Mapper, items: nat, limit: int, events: seq<Event>, i: nat)
    requires i < items
    ensures var s := Run(mapper, Initial(items, limit), events);
            && |s.results| == items && s.nextIndex <= items
            && (i < s.nextIndex <==> s.results[i].Some? || exists w :: 0 <= w < |s.workers| && Holds(s.workers[w], i))
            && (forall v, w :: 0 <= v < w < |s.workers| && Holds(s.workers[v], i) ==> !Holds(s.workers[w], i))
            && (s.results[i].Some? ==>
                  s.results[i] == mapper(i) && forall w :: 0 <= w < |s.workers| ==> !Holds(s.workers[w], i))
  {
    RunKeepsInv(mapper, Initial(items, limit), events);
  }

  /** When all workers are done, which is when the pool's promise resolves, every item has been
      mapped and its result stands at its own index. */
  lemma AllMapped(mapper: Mapper, items: nat, limit: int, events: seq<Event>)
    requires forall w :: 0 <= w < |Run(mapper, Initial(items, limit), events).workers| ==>
                           Run(mapper, Initial(items, limit), events).workers[w].Done?
    ensures var results := Run(mapper, Initial(items, limit), events).results;
            |results| == items && forall i :: 0 <= i < items ==> results[i].Some? && results[i] == mapper(i)
  {
    var s := Run(mapper, Initial(items, limit), events);
    RunKeepsInv(mapper, Initial(items, limit), events);
    assert s.workers[0].Done?;
  }

  /** Every worker has ended, and one of them by running out of items. */
  predicate Ended(s: State, survivor: nat) {
    survivor < |s.workers| && s.workers[survivor].Done? && forall w :: 0 <= w < |s.workers| ==>
                                                                         s.workers[w].Done? || s.workers[w].Crashed?
  }

  lemma EndedHasAllResults(mapper: Mapper, s: State, survivor: nat, i: nat)
    requires Inv(mapper, s) && Ended(s, survivor) && i < |s.results|
    ensures s.results[i] == mapper(i)
  {
    assert s.nextIndex == |s.results|;
    if s.results[i].None? {
      var w :| 0 <= w < |s.workers| && Holds(s.workers[w], i);
      assert s.workers[w].Crashed?;
    }
  }

  /** The items that end without a result are exactly those whose mapper threw, as long as one
      worker survives; a worker that throws takes no more items. */
  lemma SurvivorFinishesTheRest(mapper: Mapper, items: nat, limit: int, events: seq<Event>, survivor: nat, i: nat)
    requires Ended(Run(mapper, Initial(items, limit), events), survivor) && i < items
    ensures var results := Run(mapper, Initial(items, limit), events).results;
            |results| == items && results[i] == mapper(i)
  {
    RunKeepsInv(mapper, Initial(items, limit), events);
    EndedHasAllResults(mapper, Run(mapper, Initial(items, limit), events), survivor, i);
  }

  // ----- how many mappers run at once

  function Running(workers: seq<Worker>): set<int> {
    set w | 0 <= w < |workers| && workers[w].Working?
  }

  function Turns(n: nat): seq<Event> {
    seq(n, w requires 0 <= w < n => Turn(w))
  }

  lemma {:induction false} RunAppend(mapper: Mapper, s: State, events: seq<Event>, e: Event)
    ensures Run(mapper, s, events + [e]) == Step(mapper, Run(mapper, s, events), e)
    decreases |events|
  {
    if events == [] {
      assert events + [e] == [e] && [e][1..] == [];
    } else {
      assert (events + [e])[0] == events[0] && (events + [e])[1..] == events[1..] + [e];
      RunAppend(mapper, Step(mapper, s, events[0]), events[1..], e);
    }
  }

  /** After a turn of each of the first `n` workers. */
  lemma {:induction false} FirstTurns(mapper: Mapper, items: nat, limit: int, n: nat)
    requires n <= items && n <= |Initial(items, limit).workers|
    ensures var s := Run(mapper, Initial(items, limit), Turns(n));
            && s.nextIndex == n && |s.results| == items && |s.workers| == |Initial(items, limit).workers|
            && forall w :: 0 <= w < |s.workers| ==> s.workers[w] == if w < n then Working(w) else Idle
    decreases n
  {
    if n > 0 {
      FirstTurns(mapper, items, limit, n - 1);
      assert Turns(n) == Turns(n - 1) + [Turn(n - 1)];
      RunAppend(mapper, Initial(items, limit), Turns(n - 1), Turn(n - 1));
    }
  }

  lemma {:induction false} Below(n: nat) returns (numbers: set<int>)
    ensures |numbers| == n && forall k :: k in numbers <==> 0 <= k < n
    decreases n
  {
    if n == 0 {
      numbers := {};
    } else {
      numbers := Below(n - 1);
      numbers := numbers + {n - 1};
    }
  }

  lemma {:induction false} PartIsSmaller<T>(a: set<T>, b: set<T>)
    requires a <= b
    ensures |a| <= |b|
    decreases |a|
  {
    if a != {} {
      var x :| x in a;
      PartIsSmaller(a - {x}, b - {x});
    }
  }

  lemma FewRun(mapper: Mapper, items: nat, limit: int, events: seq<Event>)
    ensures |Running(Run(mapper, Initial(items, limit), events).workers)| <=
            if items == 0 then 0 else |Initial(items, limit).workers|
  {
    var s := Run(mapper, Initial(items, limit), events);
    RunKeepsInv(mapper, Initial(items, limit), events);
    if items == 0 {
      assert Running(s.workers) == {};
    } else {
      var all := Below(|s.workers|);
      PartIsSmaller(Running(s.workers), all);
    }
  }

  /** How many mappers can be running at once: any number up to the number of items and up to the
      limit (which counts as one when it is smaller), and no more. */
  lemma LimitExactly(mapper: Mapper, items: nat, limit: int, n: nat)
    ensures (exists events :: |Running(Run(mapper, Initial(items, limit), events).workers)| == n) <==>
            n <= items && (n <= 1 || n <= limit)
  {
    if n <= items && (n <= 1 || n <= limit) {
      FirstTurns(mapper, items, limit, n);
      var all := Below(n);
      assert Running(Run(mapper, Initial(items, limit), Turns(n)).workers) == all;
    }
    if events :| |Running(Run(mapper, Initial(items, limit), events).workers)| == n {
      FewRun(mapper, items, limit, events);
    }
  }

  // ----- the pool comes to an end

  function Weight(worker: Worker): nat {
    match worker case Idle => 1 case Working(_) => 2 case _ => 0
  }

  function Work(workers: seq<Worker>): nat {
    if workers == [] then 0 else Work(workers[..|workers| - 1]) + Weight(workers[|workers| - 1])
  }

  lemma {:induction false} WorkOfUpdate(workers: seq<Worker>, w: nat, worker: Worker)
    requires w < |workers|
    ensures Work(workers[w := worker]) == Work(workers) - Weight(workers[w]) + Weight(worker)
    decreases |workers|
  {
    var init := workers[..|workers| - 1];
    if w == |workers| - 1 {
      assert workers[w := worker][..w] == init;
    } else {
      assert workers[w := worker][..|workers| - 1] == init[w := worker];
      WorkOfUpdate(init, w, worker);
    }
  }

  function Left(s: State): int {
    3 * (|s.results| - s.nextIndex) + Work(s.workers)
  }

  /** Every step that does something brings the pool closer to its end, and while some worker is
      neither done nor crashed such a step is possible. */
  lemma StepsAreBounded(mapper: Mapper, s: State, e: Event)
    requires Inv(mapper, s)
    ensures Step(mapper, s, e) == s || Left(Step(mapper, s, e)) < Left(s)
    ensures 0 <= Left(s)
    ensures (exists w :: 0 <= w < |s.workers| && (s.workers[w].Idle? || s.workers[w].Working?)) ==>
              exists f: Event :: Step(mapper, s, f) != s
  {
    if Step(mapper, s, e) != s {
      WorkOfUpdate(s.workers, e.w, Step(mapper, s, e).workers[e.w]);
    }
    if w :| 0 <= w < |s.workers| && (s.workers[w].Idle? || s.workers[w].Working?) {
      var f := if s.workers[w].Idle? then Turn(w) else Mapped(w);
      assert Step(mapper, s, f).workers[w] != s.workers[w];
    }
  }
}

module WorkerPoolProgram {
  import opened WorkerPool
  import opened Wrappers

  /** What the workers of one pool share. */
  class Pool {
    var nextIndex: nat
    var workers: seq<Worker>
    const results: array<Option<int>>

    function Snapshot(): State
      reads this, results
    {
      State(nextIndex, workers, results[..])
    }

    constructor (items: nat, limit: int)
      ensures Snapshot() == Initial(items, limit) && fresh(results)
    {
      var count := if limit < items then limit else items;
      nextIndex := 0;
      workers := seq(if count < 1 then 1 else count, _ => Idle);
      results := new Option<int>[items](_ => None);
    }

    /** The loop condition and `nextIndex++`. */
    method TakeTurn(w: nat)
      requires w < |workers| && workers[w].Idle?
      modifies this
      ensures forall mapper: Mapper :: Snapshot() == Step(mapper, old(Snapshot()), Turn(w))
    {
      if nextIndex < results.Length {
        var index := nextIndex;
        nextIndex := nextIndex + 1;
        workers := workers[w := Working(index)];
      } else {
        workers := workers[w := Done];
      }
    }

    /** The mapper's promise settles: its value is stored, or the worker's promise is rejected. */
    method OnMapped(mapper: Mapper, w: nat)
      requires w < |workers| && workers[w].Working? && workers[w].index < results.Length
      modifies this, results
      ensures Snapshot() == Step(mapper, old(Snapshot()), Mapped(w))
    {
      var index := workers[w].index;
      if mapper(index).None? {
        workers := workers[w := Crashed(index)];
        return;
      }
      results[index] := mapper(index);
      workers := workers[w := Idle];
    }

    method Handle(mapper: Mapper, e: Event)
      requires Inv(mapper, Snapshot())
      modifies this, results
      ensures Inv(mapper, Snapshot()) && Snapshot() == Step(mapper, old(Snapshot()), e)
    {
      StepKeepsInv(mapper, Snapshot(), e);
      if e.w < |workers| {
        if e.Turn? && workers[e.w].Idle? {
          TakeTurn(e.w);
        } else if e.Mapped? && workers[e.w].Working? {
          OnMapped(mapper, e.w);
        }
      }
    }
  }

  /** A pool under any schedule of its workers ends in the state that the runs are about. */
  method MapConcurrent(mapper: Mapper, items: nat, limit: int, events: seq<Event>) returns (pool: Pool)
    ensures fresh(pool) && fresh(pool.results)
    ensures pool.Snapshot() == Run(mapper, Initial(items, limit), events)
  {
    pool := new Pool(items, limit);
    var i := 0;
    while i < |events|
      invariant 0 <= i <= |events| && Inv(mapper, pool.Snapshot())
      invariant Run(mapper, pool.Snapshot(), events[i..]) == Run(mapper, Initial(items, limit), events)
    {
      assert events[i..][0] == events[i] && events[i..][1..] == events[i + 1..];
      pool.Handle(mapper, events[i]);
      i := i + 1;
    }
  }
}

/** Reading files with a fixed number of workers (`readRuntimeSourceFiles` in
    scripts/check-temp-path-guardrails.ts).  Its workers count the shared index up before they look
    whether anything is left, and go on after a file that cannot be read; the runs are still those
    of the pool above. */
module FileReaders {
  import opened WorkerPool
  import opened Wrappers

  /** What reading a file comes to: its source (some number), or a negative number for an empty path
      or a file that is gone. */
  type Reading = nat -> int

  datatype Readers = Readers(nextIndex: nat, workers: seq<Worker>, output: seq<Option<int>>)

  const FILE_READ_CONCURRENCY := 24

  function Start(files: nat): Readers {
    var count := if files < 1 then 1 else files;
    Readers(0, seq(if FILE_READ_CONCURRENCY < count then FILE_READ_CONCURRENCY else count, _ => Idle),
            seq(files, _ => None))
  }

  function ReaderStep(read: Reading, r: Readers, e: Event): Readers {
    if e.w >= |r.workers| then r
    else
      match (e, r.workers[e.w])
      case (Turn(w), Idle) =>
        var counted := r.(nextIndex := r.nextIndex + 1);
        if r.nextIndex >= |r.output| then counted.(workers := r.workers[w := Done])
        else counted.(workers := r.workers[w := Working(r.nextIndex)])
      case (Mapped(w), Working(index)) =>
        r.(workers := r.workers[w := Idle],
        output := if index < |r.output| && read(index) >= 0 then r.output[index := Some(read(index))] else r.output)
      case _ => r
  }

  function RunReaders(read: Reading, r: Readers, events: seq<Event>): Readers
    decreases |events|
  {
    if events == [] then r else RunReaders(read, ReaderStep(read, r, events[0]), events[1..])
  }

  /** Reading as a mapper that never throws. */
  function AsMapper(read: Reading): Mapper {
    (i: nat) => Some(read(i))
  }

  function Shown(result: Option<int>): Option<int> {
    if result.Some? && result.value >= 0 then result else None
  }

  /** The readers stand as the pool does, but for what the counter overshot and for results that
      are not shown. */
  ghost predicate Simulates(r: Readers, s: State) {
    && r.workers == s.workers && |r.output| == |s.results|
    && s.nextIndex == (if r.nextIndex < |r.output| then r.nextIndex else |r.output|)
    && forall i :: 0 <= i < |r.output| ==> r.output[i] == Shown(s.results[i])
  }

  lemma StepSimulates(read: Reading, r: Readers, s: State, e: Event)
    requires Simulates(r, s) && Inv(AsMapper(read), s)
    ensures Simulates(ReaderStep(read, r, e), Step(AsMapper(read), s, e))
  {
  }

  lemma {:induction false} RunSimulates(read: Reading, r: Readers, s: State, events: seq<Event>)
    requires Simulates(r, s) && Inv(AsMapper(read), s)
    ensures Simulates(RunReaders(read, r, events), Run(AsMapper(read), s, events))
    decreases |events|
  {
    if events != [] {
      StepSimulates(read, r, s, events[0]);
      StepKeepsInv(AsMapper(read), s, events[0]);
      RunSimulates(read, ReaderStep(read, r, events[0]), Step(AsMapper(read), s, events[0]), events[1..]);
    }
  }

  /** `output.filter(...)`. */
  function Kept(output: seq<Option<int>>): seq<int> {
    if output == [] then []
    else Kept(output[..|output| - 1]) + (if output[|output| - 1].Some? then [output[|output| - 1].value] else [])
  }

  /** The sources of the first `n` files that could be read, in order. */
  function Sources(read: Reading, n: nat): seq<int> {
    if n == 0 then [] else Sources(read, n - 1) + (if read(n - 1) >= 0 then [read(n - 1)] else [])
  }

  /** When all readers are done, the output is every readable file's source, in the order of the
      files, whatever the interleaving. */
  lemma AllRead(read: Reading, files: nat, events: seq<Event>)
    requires forall w :: 0 <= w < |RunReaders(read, Start(files), events).workers| ==>
                           RunReaders(read, Start(files), events).workers[w].Done?
    ensures Kept(RunReaders(read, Start(files), events).output) == Sources(read, files)
  {
    var s := Run(AsMapper(read), Initial(files, FILE_READ_CONCURRENCY), events);
    RunSimulates(read, Start(files), Initial(files, FILE_READ_CONCURRENCY), events);
    AllMapped(AsMapper(read), files, FILE_READ_CONCURRENCY, events);
    KeptOf(read, RunReaders(read, Start(files), events).output);
  }

  lemma {:induction false} KeptOf(read: Reading, output: seq<Option<int>>)
    requires forall i :: 0 <= i < |output| ==> output[i] == Shown(Some(read(i)))
    ensures Kept(output) == Sources(read, |output|)
    decreases |output|
  {
    if output != [] {
      KeptOf(read, output[..|output| - 1]);
    }
  }
}
