/** The re-entrant timer handler of t5.c and t6.c and the main loop below it: every active call is
    an entry of a stack, only the last one runs, and the timer may interrupt it between any two steps. */
module Preemption {
  import opened ReadyList

  /** One ready_queue_add of a handler: what it queues and, for reading, the job's true deadline. */
  datatype Order = Order(prio: int, due: nat, id: int)

  /** What ready_queue_peek gave. */
  datatype Head = Empty | First(job: Item)

  /** Where a call is: about to peek, about to test what it peeked, inside run->task() or between it
      and the pop, and for the main loop asleep. */
  datatype Pc = Look | Decide(run: Head) | Running(job: Item) | Sleep

  /** The active calls, the running one outermost here and main at the bottom. found is the ready
      list when a handler began; of it the program keeps only the first record, as current. */
  datatype Stack = Main(pc: Pc) | Handler(found: seq<Item>, pc: Pc, below: Stack)

  /** The last three are for reading: by record the job's true deadline and its number in the order of
      arrival, and the jobs popped so far. */
  datatype State = State(
    ready: seq<Item>, free: seq<nat>, stack: Stack, due: map<nat, nat>, since: map<nat, nat>, ended: seq<Item>)

  /** Crash is a step that reads through a null pointer. */
  datatype Outcome = Crash | Next(s: State)

  datatype Event = Advance | Interrupt(orders: seq<Order>)

  function HeadOf(s: seq<Item>): Head {
    if s == [] then Empty else First(s[0])
  }

  /** The test that ends a call's loop: nothing is left, or only what the call preempted. It compares records. */
  predicate Finished(found: seq<Item>, run: Head) {
    run.Empty? || (found != [] && run.job.node == found[0].node)
  }

  /** ready_queue_add. */
  function AddOne(s: State, o: Order): State
    requires s.free != []
  {
    s.(ready := Insert(s.ready, Item(s.free[0], o.prio, o.id)), free := s.free[1..],
       due := s.due[s.free[0] := o.due], since := s.since[s.free[0] := |s.ready| + |s.ended|])
  }

  function AddAll(s: State, orders: seq<Order>): (r: State)
    requires |orders| <= |s.free|
    ensures r.stack == s.stack && r.ended == s.ended && |r.free| == |s.free| - |orders|
    decreases |orders|
  {
    if orders == [] then s else AddAll(AddOne(s, orders[0]), orders[1..])
  }

  /** ready_queue_pop. */
  function Pop(s: State): State
    requires s.ready != []
  {
    s.(ready := s.ready[1..], free := [s.ready[0].node] + s.free, ended := s.ended + [s.ready[0]])
  }

  /** main preempted nothing. */
  function Found(k: Stack): seq<Item> {
    if k.Main? then [] else k.found
  }

  function At(s: State, pc: Pc): State {
    s.(stack := s.stack.(pc := pc))
  }

  /** One step of the running call. */
  function Advanced(s: State): Outcome {
    match s.stack.pc
    case Look => Next(At(s, Decide(HeadOf(s.ready))))
    case Decide(run) =>
      if !Finished(Found(s.stack), run) then Next(At(s, Running(run.job)))
      else if s.stack.Handler? then Next(s.(stack := s.stack.below))
      else Next(At(s, Sleep))
    case Running(_) => if s.ready == [] then Crash else Next(At(Pop(s), Look))
    case Sleep => Next(At(s, Look))
  }

  /** The timer: a new call notes the head and queues its jobs, all with exceptions off. */
  function Fire(s: State, e: Event): Outcome {
    match e
    case Advance => Advanced(s)
    case Interrupt(orders) =>
      if |orders| > |s.free| then Crash else Next(AddAll(s, orders).(stack := Handler(s.ready, Look, s.stack)))
  }

  /** After ready_queue_init over a pool of n records, main at its first peek. */
  function Start(n: nat): State {
    State([], seq(n, i => i), Main(Look), map[], map[], [])
  }

  /** Ready and free records together are the pool, each once. */
  ghost predicate Pooled(n: nat, ready: seq<Item>, free: seq<nat>) {
    && |ready| + |free| == n
    && DistinctNodes(ready)
    && (forall i, j :: 0 <= i < j < |free| ==> free[i] != free[j])
    && (forall i, j :: 0 <= i < |ready| && 0 <= j < |free| ==> ready[i].node != free[j])
    && (forall i :: 0 <= i < |ready| ==> ready[i].node < n)
    && (forall i :: 0 <= i < |free| ==> free[i] < n)
  }

  /** A call, the list it found and the list it sees when it runs agree. */
  ghost predicate Fits(found: seq<Item>, pc: Pc, seen: seq<Item>) {
    && Sorted(seen) && DistinctNodes(seen) && Kept(found, seen)
    && match pc
       case Look => true
       case Decide(run) => run == HeadOf(seen)
       case Running(job) => seen != [] && seen[0] == job && (found != [] ==> job.node != found[0].node)
       case Sleep => seen == []
  }

  /** The running call sees the ready list; a preempted one will see the head its preempter found. */
  ghost predicate Chain(k: Stack, seen: seq<Item>) {
    Fits(Found(k), k.pc, seen) && (k.Handler? ==> !k.pc.Sleep? && Chain(k.below, k.found))
  }

  ghost predicate Inv(n: nat, s: State) {
    Pooled(n, s.ready, s.free) && Chain(s.stack, s.ready)
  }

  // ---------------------------------------------------------------- every step keeps the invariant

  lemma AddPooled(n: nat, ready: seq<Item>, free: seq<nat>, x: Item)
    requires Pooled(n, ready, free) && free != [] && x.node == free[0]
    ensures Pooled(n, Insert(ready, x), free[1..])
  {
    InsertDistinct(ready, x);
    var r, f := Insert(ready, x), free[1..];
    forall i | 0 <= i < |r| ensures r[i].node < n && forall j :: 0 <= j < |f| ==> r[i].node != f[j] {
      InsertAt(ready, x, i);
    }
    InsertAt(ready, x, 0);
  }

  lemma PopPooled(n: nat, ready: seq<Item>, free: seq<nat>)
    requires Pooled(n, ready, free) && ready != []
    ensures Pooled(n, ready[1..], [ready[0].node] + free)
  {
  }

  /** What a batch of additions keeps, relative to any earlier list. */
  lemma {:induction false} AddAllKeeps(n: nat, was: seq<Item>, s: State, orders: seq<Order>)
    requires |orders| <= |s.free| && Pooled(n, s.ready, s.free) && Sorted(s.ready) && Kept(was, s.ready)
    ensures var r := AddAll(s, orders); Pooled(n, r.ready, r.free) && Sorted(r.ready) && Kept(was, r.ready)
    decreases |orders|
  {
    if orders != [] {
      var x := Item(s.free[0], orders[0].prio, orders[0].id);
      AddPooled(n, s.ready, s.free, x);
      InsertMeaning(s.ready, x);
      KeptInsert(was, s.ready, x);
      AddAllKeeps(n, was, AddOne(s, orders[0]), orders[1..]);
    }
  }

  /** A call that ends leaves the head as it found it. */
  lemma HeadRestored(found: seq<Item>, seen: seq<Item>)
    requires Kept(found, seen) && DistinctNodes(seen) && Finished(found, HeadOf(seen))
    ensures HeadOf(seen) == HeadOf(found)
  {
    if found != [] {
      var k := KeptFirst(found, seen);
    }
  }

  /** Below a call that ended, the list changed but the head did not. */
  lemma ChainAcross(k: Stack, before: seq<Item>, after: seq<Item>)
    requires Chain(k, before) && Kept(before, after) && Sorted(after) && DistinctNodes(after)
    requires HeadOf(after) == HeadOf(before)
    ensures Chain(k, after)
  {
    KeptTrans(Found(k), before, after);
  }

  /** The job at the head was not there when the call began, so popping it keeps what was. */
  lemma PopKeeps(found: seq<Item>, seen: seq<Item>)
    requires seen != [] && Kept(found, seen) && Sorted(seen) && DistinctNodes(seen)
    requires found != [] ==> seen[0].node != found[0].node
    ensures Kept(found, seen[1..]) && Sorted(seen[1..]) && DistinctNodes(seen[1..])
  {
  }

  /** Stepping the running call keeps the invariant and never reads through null. */
  lemma AdvanceKeepsInv(n: nat, s: State)
    requires Inv(n, s)
    ensures Advanced(s).Next? && Inv(n, Advanced(s).s)
  {
    match s.stack.pc
    case Look =>
    case Decide(run) =>
      if Finished(Found(s.stack), run) && s.stack.Handler? {
        HeadRestored(s.stack.found, s.ready);
        ChainAcross(s.stack.below, s.stack.found, s.ready);
      }
    case Running(job) =>
      PopKeeps(Found(s.stack), s.ready);
      PopPooled(n, s.ready, s.free);
    case Sleep =>
  }

  /** A step goes wrong exactly when a batch finds too few free records. */
  lemma FireKeepsInv(n: nat, s: State, e: Event)
    requires Inv(n, s)
    ensures Fire(s, e).Crash? <==> e.Interrupt? && |e.orders| > |s.free|
    ensures Fire(s, e).Next? ==> Inv(n, Fire(s, e).s)
  {
    match e
    case Advance => AdvanceKeepsInv(n, s);
    case Interrupt(orders) =>
      if |orders| <= |s.free| {
        KeptSame(s.ready);
        AddAllKeeps(n, s.ready, s, orders);
      }
  }
}
