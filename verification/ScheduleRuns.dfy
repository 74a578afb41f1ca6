/** Runs of t6.c at the times its timer really fires: how long its deadlines are in order, the run in
    which they first are not, and a run in which two handlers have preempted the same job. */
module ScheduleRuns {
  import opened Numbers
  import opened ReadyList
  import opened Preemption
  import opened PreemptionTheorems
  import opened Schedules

  /** exception_on_expire(0, 100000, handler), and 50 ms more at each activation. */
  function FireTime(k: nat): nat {
    100000 + 50000000 * k
  }

  /** What activation number k queues. */
  function BatchOf(k: nat): seq<Order> {
    EdfOrders(TickAfter(k), FireTime(k))
  }

  /** The interrupts of the run are the activations from number k on. */
  predicate OnSchedule(run: seq<Event>, k: nat)
    decreases |run|
  {
    run == [] || (
      if run[0].Interrupt? then run[0].orders == BatchOf(k) && OnSchedule(run[1..], k + 1)
      else OnSchedule(run[1..], k))
  }

  lemma BatchIs(k: nat)
    ensures BatchOf(k) == EdfOrders(k % 4, 100000 + 50000000 * k)
  {
    TicksCycle(k);
  }

  /** Activation number k queues ids 0, 1 and 3, due 50 ms after it fires, and exactly every fourth one, the
      first included, ids 2 and 4, due 200 ms after it. */
  lemma BatchExactly(k: nat)
    ensures var at := 100000 + 50000000 * k;
            var soon, late := at + 50000000, at + 200000000;
            var p, q := soon % 0x1_0000_0000, late % 0x1_0000_0000;
            multiset(BatchOf(k)) ==
              multiset{Order(p, soon, 0), Order(p, soon, 1), Order(p, soon, 3)}
              + if k % 4 == 0 then multiset{Order(q, late, 2), Order(q, late, 4)} else multiset{}
  {
    BatchIs(k);
    EdfBatch(k % 4, 100000 + 50000000 * k);
  }

  /** How many of the first m activations bring job id with this priority. */
  function Scheduled(m: nat, prio: int, id: int): nat {
    if m == 0 then 0
    else
      var at := 100000 + 50000000 * (m - 1);
      Scheduled(m - 1, prio, id)
      + if (prio == (at + 50000000) % 0x1_0000_0000 && (id == 0 || id == 1 || id == 3))
           || ((m - 1) % 4 == 0 && prio == (at + 200000000) % 0x1_0000_0000 && (id == 2 || id == 4)) then 1 else 0
  }

  function CopiesAs(orders: seq<Order>, prio: int, id: int): nat {
    if orders == [] then 0
    else (if orders[0].prio == prio && orders[0].id == id then 1 else 0) + CopiesAs(orders[1..], prio, id)
  }

  lemma {:induction false} OrderedIs(orders: seq<Order>, prio: int, id: int)
    ensures Ordered(orders)[(prio, id)] == CopiesAs(orders, prio, id)
  {
    if orders != [] { OrderedIs(orders[1..], prio, id); }
  }

  function Came(run: seq<Event>, prio: int, id: int): nat {
    if run == [] then 0
    else (if run[0].Interrupt? then CopiesAs(run[0].orders, prio, id) else 0) + Came(run[1..], prio, id)
  }

  lemma {:induction false} ArrivedIs(run: seq<Event>, prio: int, id: int)
    ensures Arrived(run)[(prio, id)] == Came(run, prio, id)
  {
    if run != [] {
      if run[0].Interrupt? { OrderedIs(run[0].orders, prio, id); }
      ArrivedIs(run[1..], prio, id);
    }
  }

  lemma ScheduledNext(k: nat, prio: int, id: int)
    ensures Scheduled(k + 1, prio, id) == Scheduled(k, prio, id) + CopiesAs(BatchOf(k), prio, id)
  {
    BatchIs(k);
    EdfCounts(k % 4, 100000 + 50000000 * k, prio, id);
    OrderedIs(BatchOf(k), prio, id);
  }

  lemma {:induction false} ScheduleCame(run: seq<Event>, k: nat, end: nat, prio: int, id: int)
    requires OnSchedule(run, k) && end == k + Interrupts(run)
    ensures Scheduled(k, prio, id) + Came(run, prio, id) == Scheduled(end, prio, id)
    decreases |run|
  {
    if run != [] {
      if run[0].Interrupt? {
        ScheduledNext(k, prio, id);
        ScheduleCame(run[1..], k + 1, end, prio, id);
      } else {
        ScheduleCame(run[1..], k, end, prio, id);
      }
    }
  }

  lemma {:induction false} ScheduleFollows(run: seq<Event>, k: nat, tick: nat)
    requires OnSchedule(run, k) && tick == TickAfter(k)
    ensures FollowsEdf(run, tick)
    decreases |run|
  {
    if run != [] {
      if run[0].Interrupt? {
        assert run[0].orders == EdfOrders(tick, FireTime(k));
        ScheduleFollows(run[1..], k + 1, NextTick(tick));
      } else {
        ScheduleFollows(run[1..], k, tick);
      }
    }
  }

  lemma WorkCounted(run: seq<Event>, x: (int, int))
    requires After(Start(5), run).Next?
    ensures var s := After(Start(5), run).s; Work(s.ready)[x] + Work(s.ended)[x] == Arrived(run)[x]
  {
    var s := After(Start(5), run).s;
    WorkConserved(Start(5), run);
    assert (Work(s.ready) + Work(s.ended))[x] == (multiset{} + multiset{} + Arrived(run))[x];
  }

  /** Over every run on schedule the jobs queued and the jobs ended are together exactly those that its m
      activations are to bring, and of each job there came so many. */
  lemma ScheduledWork(run: seq<Event>, prio: int, id: int)
    requires OnSchedule(run, 0) && After(Start(5), run).Next?
    ensures var s, m := After(Start(5), run).s, Interrupts(run);
            && Work(s.ready)[(prio, id)] + Work(s.ended)[(prio, id)] == Scheduled(m, prio, id)
            && Arrivals(run, id) == if id == 0 || id == 1 || id == 3 then m
                                    else if id == 2 || id == 4 then (m + 3) / 4 else 0
  {
    ScheduleCame(run, 0, Interrupts(run), prio, id);
    ArrivedIs(run, prio, id);
    WorkCounted(run, (prio, id));
    ScheduleFollows(run, 0, 0);
    EdfArrivalsExactly(run, id);
  }

  lemma {:induction false} ScheduleAppend(a: seq<Event>, e: Event, k: nat)
    ensures OnSchedule(a + [e], k) <==>
              OnSchedule(a, k) && (e.Interrupt? ==> e.orders == BatchOf(k + Interrupts(a)))
    ensures Interrupts(a + [e]) == Interrupts(a) + if e.Interrupt? then 1 else 0
    decreases |a|
  {
    if a == [] {
      assert a + [e] == [e] && [e][1..] == [];
    } else {
      assert (a + [e])[0] == a[0] && (a + [e])[1..] == a[1..] + [e];
      ScheduleAppend(a[1..], e, if a[0].Interrupt? then k + 1 else k);
    }
  }

  lemma {:induction false} AfterAppend(s: State, a: seq<Event>, e: Event)
    requires After(s, a).Next?
    ensures After(s, a + [e]) == Fire(After(s, a).s, e)
    decreases |a|
  {
    if a == [] {
      assert a + [e] == [e] && [e][1..] == [];
    } else {
      assert (a + [e])[0] == a[0] && (a + [e])[1..] == a[1..] + [e];
      AfterAppend(Fire(s, a[0]).s, a[1..], e);
    }
  }

  // --------------------------------------------------------------- deadlines in order before the wrap

  predicate Unwrapped(prio: int, due: nat) {
    prio == due
  }

  lemma EarlyBatch(k: nat)
    requires k < 84
    ensures forall o :: o in BatchOf(k) ==> Unwrapped(o.prio, o.due)
  {
    TicksCycle(k);
    EdfOrdersStamped(TickAfter(k), FireTime(k));
    forall o | o in BatchOf(k) ensures o.due < UINT32 {
      assert o.due == FireTime(k) + SHORT || (k % 4 == 0 && o.due == FireTime(k) + LONG);
    }
  }

  lemma {:induction false} EarlyRunBrings(run: seq<Event>, k: nat)
    requires OnSchedule(run, k) && k + Interrupts(run) <= 84
    ensures Brings(run, Unwrapped)
    decreases |run|
  {
    if run != [] {
      EarlyRunBrings(run[1..], if run[0].Interrupt? then k + 1 else k);
      forall i | 0 <= i < |run| && run[i].Interrupt?
        ensures forall o :: o in run[i].orders ==> Unwrapped(o.prio, o.due)
      {
        if i == 0 { EarlyBatch(k); } else { assert run[1..][i - 1] == run[i]; }
      }
    }
  }

  /** Over the first 84 activations, 4.2 s, whoever starts a job starts one with the earliest deadline. */
  lemma EarliestForFourSeconds(run: seq<Event>)
    requires OnSchedule(run, 0) && Interrupts(run) <= 84
    requires After(Start(5), run).Next? && Dispatches(After(Start(5), run).s)
    ensures var s := After(Start(5), run).s;
            && s.ready != [] && (forall i :: 0 <= i < |s.ready| ==> s.ready[i].node in s.due)
            && forall i :: 0 <= i < |s.ready| ==> s.due[s.ready[0].node] <= s.due[s.ready[i].node]
  {
    StartInv(5);
    EarlyRunBrings(run, 0);
    RunQueued(5, Start(5), run, Unwrapped);
    StartsMostUrgent(5, run);
  }

  // ------------------------------------------------------------------------------ building a run

  /** The run is on schedule with m activations and leads from the start to s. */
  ghost predicate Leads(run: seq<Event>, s: State, m: nat) {
    OnSchedule(run, 0) && Interrupts(run) == m && After(Start(5), run) == Next(s)
  }

  lemma Go(run: seq<Event>, s: State, m: nat) returns (r: seq<Event>)
    requires Leads(run, s, m) && Advanced(s).Next?
    ensures Leads(r, Advanced(s).s, m)
  {
    r := run + [Advance];
    ScheduleAppend(run, Advance, 0);
    AfterAppend(Start(5), run, Advance);
  }

  lemma Tick(run: seq<Event>, s: State, m: nat) returns (r: seq<Event>)
    requires Leads(run, s, m) && |BatchOf(m)| <= |s.free|
    ensures Leads(r, Fire(s, Interrupt(BatchOf(m))).s, m + 1)
  {
    r := run + [Interrupt(BatchOf(m))];
    ScheduleAppend(run, Interrupt(BatchOf(m)), 0);
    AfterAppend(Start(5), run, Interrupt(BatchOf(m)));
  }

  /** Peek, test and run. */
  lemma StartHead(run: seq<Event>, s: State, m: nat) returns (r: seq<Event>)
    requires Leads(run, s, m) && s.stack.pc == Look && s.ready != [] && !Finished(Found(s.stack), First(s.ready[0]))
    ensures Leads(r, At(s, Running(s.ready[0])), m)
  {
    r := Go(run, s, m);
    var s1 := At(s, Decide(First(s.ready[0])));
    r := Go(r, s1, m);
    assert Advanced(s1) == Next(At(s, Running(s.ready[0])));
  }

  /** And pop. */
  lemma ServeHead(run: seq<Event>, s: State, m: nat) returns (r: seq<Event>)
    requires Leads(run, s, m) && s.stack.pc == Look && s.ready != [] && !Finished(Found(s.stack), First(s.ready[0]))
    ensures Leads(r, Pop(s), m)
  {
    r := StartHead(run, s, m);
    var s1 := At(s, Running(s.ready[0]));
    r := Go(r, s1, m);
    assert Advanced(s1) == Next(Pop(s));
  }

  // ------------------------------------------------------- the first run in which a deadline wraps

  ghost predicate AllServed(s: State) {
    Inv(5, s) && s.ready == [] && s.stack == Main(Look)
  }

  /** A handler that preempted nothing serves everything and returns. */
  lemma {:induction false} ServeAll(run: seq<Event>, s: State, m: nat) returns (r: seq<Event>, t: State)
    requires Leads(run, s, m) && Inv(5, s) && s.stack == Handler([], Look, Main(Look))
    ensures Leads(r, t, m) && AllServed(t)
    decreases |s.ready|
  {
    if s.ready == [] {
      r := Go(run, s, m);
      var s1 := At(s, Decide(Empty));
      r := Go(r, s1, m);
      t := s.(stack := Main(Look));
    } else {
      r := ServeHead(run, s, m);
      PopKeeps([], s.ready);
      PopPooled(5, s.ready, s.free);
      r, t := ServeAll(r, Pop(s), m);
    }
  }

  /** Any number of activations, each served before the next. */
  lemma {:induction false} Served(m: nat) returns (run: seq<Event>, s: State)
    ensures Leads(run, s, m) && AllServed(s)
  {
    if m == 0 {
      run, s := [], Start(5);
      StartInv(5);
    } else {
      run, s := Served(m - 1);
      run := Tick(run, s, m - 1);
      FireKeepsInv(5, s, Interrupt(BatchOf(m - 1)));
      run, s := ServeAll(run, Fire(s, Interrupt(BatchOf(m - 1))).s, m - 1 + 1);
    }
  }

  /** The batch of activation 84, the first one at tick 0 whose long deadlines do not fit in 32 bits. */
  lemma WrappedBatch(s: State, orders: seq<Order>, added: State)
    requires AllServed(s) && orders == EdfOrders(0, 4200100000) && added == AddAll(s, orders)
    ensures added.ready != [] && added.ready[0].node in added.due && added.due[added.ready[0].node] == 4400100000
    ensures Waiting(added, 4250100000, 4250100000)
  {
    var related := (prio: int, due: nat) =>
      (prio == 4250100000 == due) || (prio == 105132704 && due == 4400100000);
    assert forall o :: o in orders ==> related(o.prio, o.due);
    AddAllQueued(5, s, orders, related);
    assert orders[0].prio == 4250100000 && orders[2].prio == 105132704;
    AddAllWaiting(5, s, orders, 4250100000, 4250100000);
    AddAllWaiting(5, s, orders, 105132704, 4400100000);
    AddAllKeeps(5, [], s, orders);
  }

  /** An activation over an idle system, up to the test of its first peek. */
  lemma Arrives(run: seq<Event>, s: State, m: nat, orders: seq<Order>) returns (r: seq<Event>)
    requires Leads(run, s, m) && AllServed(s) && orders == BatchOf(m) && |orders| <= 5
    ensures var t := AddAll(s, orders);
            Leads(r, t.(stack := Handler([], Decide(HeadOf(t.ready)), Main(Look))), m + 1)
  {
    r := Tick(run, s, m);
    var t := AddAll(s, orders);
    r := Go(r, t.(stack := Handler([], Look, Main(Look))), m + 1);
  }

  lemma WaitingStays(s: State, r: State, prio: int, due: nat)
    requires Waiting(s, prio, due) && r.ready == s.ready && r.due == s.due
    ensures Waiting(r, prio, due)
  {
    var i :| 0 <= i < |s.ready| && IsDue(s, i, prio, due);
    assert IsDue(r, i, prio, due);
  }

  /** The 85th activation, at 4.2001 s: a job due at 4.4001 s is started while one due at 4.2501 s waits. */
  lemma WrappedDeadlineFirst() returns (run: seq<Event>)
    ensures OnSchedule(run, 0) && Interrupts(run) == 85
    ensures After(Start(5), run).Next? && Dispatches(After(Start(5), run).s)
    ensures var s := After(Start(5), run).s;
            && s.ready != [] && s.ready[0].node in s.due && s.due[s.ready[0].node] == 4400100000
            && Waiting(s, 4250100000, 4250100000)
  {
    var s;
    run, s := Served(84);
    LongBatch(84);
    var orders := EdfOrders(0, 4200100000);
    WrappedBatch(s, orders, AddAll(s, orders));
    run := Arrives(run, s, 84, orders);
    var t := AddAll(s, orders);
    var last := t.(stack := Handler([], Decide(HeadOf(t.ready)), Main(Look)));
    WaitingStays(t, last, 4250100000, 4250100000);
  }

  lemma LongBatch(k: nat)
    requires k % 4 == 0
    ensures BatchOf(k) == EdfOrders(0, 100000 + 50000000 * k) && |BatchOf(k)| == 5
  {
    TicksCycle(k);
  }

  // ------------------------------------------------------------- two handlers over the same job

  /** An addition behind a and in front of b. */
  lemma AddAt(s: State, o: Order, a: seq<Item>, b: seq<Item>)
    requires s.free != [] && s.ready == a + b && (b == [] || b[0].prio > o.prio)
    requires forall i :: 0 <= i < |a| ==> a[i].prio <= o.prio
    ensures AddOne(s, o).ready == a + [Item(s.free[0], o.prio, o.id)] + b && AddOne(s, o).free == s.free[1..]
  {
    PlaceIs(s.ready, o.prio, |a|);
  }

  /** Three additions of one priority in front of everything less urgent. */
  lemma AddThree(s: State, o: Order, p: Order, q: Order)
    requires |s.free| >= 3 && o.prio == p.prio == q.prio && (s.ready != [] ==> s.ready[0].prio > o.prio)
    ensures var r := AddOne(AddOne(AddOne(s, o), p), q);
            && r.ready == [Item(s.free[0], o.prio, o.id), Item(s.free[1], p.prio, p.id), Item(s.free[2], q.prio, q.id)]
                          + s.ready
            && r.free == s.free[3..] && r.stack == s.stack
  {
    var x, y := Item(s.free[0], o.prio, o.id), Item(s.free[1], p.prio, p.id);
    assert s.ready == [] + s.ready;
    AddAt(s, o, [], s.ready);
    var s1 := AddOne(s, o);
    assert s1.ready == [x] + s.ready;
    AddTwoMore(s1, x, s.ready, p, q);
  }

  lemma AddTwoMore(s: State, x: Item, rest: seq<Item>, p: Order, q: Order)
    requires |s.free| >= 2 && s.ready == [x] + rest && x.prio == p.prio == q.prio
    requires (rest != [] ==> rest[0].prio > p.prio)
    ensures var r := AddOne(AddOne(s, p), q);
            && r.ready == [x, Item(s.free[0], p.prio, p.id), Item(s.free[1], q.prio, q.id)] + rest
            && r.free == s.free[2..] && r.stack == s.stack
  {
    var y, z := Item(s.free[0], p.prio, p.id), Item(s.free[1], q.prio, q.id);
    AddAt(s, p, [x], rest);
    var s1 := AddOne(s, p);
    Lined(x, y, z, rest);
    AddAt(s1, q, [x, y], rest);
  }

  lemma Lined(x: Item, y: Item, z: Item, rest: seq<Item>)
    ensures [x] + [y] + rest == [x, y] + rest && [x, y] + [z] + rest == [x, y, z] + rest
  {
  }

  lemma AddAllThree(s: State, orders: seq<Order>)
    requires |orders| == 3 <= |s.free|
    ensures AddAll(s, orders) == AddOne(AddOne(AddOne(s, orders[0]), orders[1]), orders[2])
  {
    var s1 := AddOne(s, orders[0]);
    assert AddAll(s, orders) == AddAll(s1, orders[1..]) == AddAll(AddOne(s1, orders[1]), orders[1..][1..]);
    assert AddAll(AddOne(s1, orders[1]), orders[1..][1..]) == AddAll(AddOne(AddOne(s1, orders[1]), orders[2]), []);
  }

  lemma ShortOrders(k: nat) returns (orders: seq<Order>)
    requires k == 1 || k == 2
    ensures orders == BatchOf(k) && |orders| == 3
    ensures orders[0] == Order(FireTime(k) + SHORT, FireTime(k) + SHORT, 0)
    ensures orders[1] == Order(FireTime(k) + SHORT, FireTime(k) + SHORT, 1)
    ensures orders[2] == Order(FireTime(k) + SHORT, FireTime(k) + SHORT, 3)
  {
    TicksCycle(k);
    orders := BatchOf(k);
  }

  lemma FirstOrders() returns (orders: seq<Order>)
    ensures orders == BatchOf(0) && |orders| == 5
    ensures orders[0] == Order(50100000, 50100000, 0) && orders[1] == Order(50100000, 50100000, 1)
    ensures orders[2] == Order(200100000, 200100000, 2) && orders[3] == Order(50100000, 50100000, 3)
    ensures orders[4] == Order(200100000, 200100000, 4)
  {
    orders := BatchOf(0);
  }

  /** The first batch, from the start: three short deadlines and then two long ones. */
  lemma FirstBatch(orders: seq<Order>) returns (r: State)
    requires |orders| == 5 && orders[0] == Order(50100000, 50100000, 0) && orders[1] == Order(50100000, 50100000, 1)
    requires orders[2] == Order(200100000, 200100000, 2) && orders[3] == Order(50100000, 50100000, 3)
    requires orders[4] == Order(200100000, 200100000, 4)
    ensures r == AddAll(Start(5), orders) && r.free == [] && r.stack == Main(Look)
    ensures r.ready == [Item(0, 50100000, 0), Item(1, 50100000, 1), Item(3, 50100000, 3),
                        Item(2, 200100000, 2), Item(4, 200100000, 4)]
  {
    var s := Start(5);
    assert s.free == [0, 1, 2, 3, 4];
    var t := FirstThree(s, orders[0], orders[1], orders[2]);
    r := LastTwo(t, orders[3..]);
    var s1 := AddOne(s, orders[0]);
    assert AddAll(s, orders) == AddAll(s1, orders[1..]) == AddAll(AddOne(s1, orders[1]), orders[1..][1..]);
    assert orders[1..][1..][1..] == orders[3..];
  }

  lemma FirstThree(s: State, o: Order, p: Order, q: Order) returns (r: State)
    requires s.ready == [] && s.free == [0, 1, 2, 3, 4]
    requires o == Order(50100000, 50100000, 0) && p == Order(50100000, 50100000, 1)
    requires q == Order(200100000, 200100000, 2)
    ensures r == AddOne(AddOne(AddOne(s, o), p), q) && r.stack == s.stack && r.free == [3, 4]
    ensures r.ready == [Item(0, 50100000, 0), Item(1, 50100000, 1), Item(2, 200100000, 2)]
  {
    var x, y := Item(0, 50100000, 0), Item(1, 50100000, 1);
    AddAt(s, o, [], []);
    var s1 := AddOne(s, o);
    assert s1.ready == [x] + [];
    AddAt(s1, p, [x], []);
    var s2 := AddOne(s1, p);
    assert s2.ready == [x, y] + [];
    AddAt(s2, q, [x, y], []);
    r := AddOne(s2, q);
  }

  lemma LastTwo(s: State, orders: seq<Order>) returns (r: State)
    requires s.ready == [Item(0, 50100000, 0), Item(1, 50100000, 1), Item(2, 200100000, 2)] && s.free == [3, 4]
    requires orders == [Order(50100000, 50100000, 3), Order(200100000, 200100000, 4)]
    ensures r == AddAll(s, orders) && r.free == [] && r.stack == s.stack
    ensures r.ready == [Item(0, 50100000, 0), Item(1, 50100000, 1), Item(3, 50100000, 3),
                        Item(2, 200100000, 2), Item(4, 200100000, 4)]
  {
    var a, b := [Item(0, 50100000, 0), Item(1, 50100000, 1)], [Item(2, 200100000, 2)];
    assert s.ready == a + b;
    AddAt(s, orders[0], a, b);
    var s1 := AddOne(s, orders[0]);
    var c := [Item(0, 50100000, 0), Item(1, 50100000, 1), Item(3, 50100000, 3), Item(2, 200100000, 2)];
    assert s1.ready == c + [] && s1.free == [4];
    AddAt(s1, orders[1], c, []);
    r := AddOne(s1, orders[1]);
    assert orders[1..][1..] == [];
    assert AddAll(s, orders) == AddAll(s1, orders[1..]) == AddAll(r, []);
  }

  /** Three jobs served one after another. */
  lemma ServeThree(run: seq<Event>, s: State, m: nat, x: Item, y: Item, z: Item, rest: seq<Item>)
    returns (r: seq<Event>, t: State)
    requires Leads(run, s, m) && s.stack.pc == Look && s.ready == [x, y, z] + rest
    requires Found(s.stack) != [] ==>
               x.node != Found(s.stack)[0].node && y.node != Found(s.stack)[0].node && z.node != Found(s.stack)[0].node
    ensures Leads(r, t, m)
    ensures t.ready == rest && t.free == [z.node, y.node, x.node] + s.free && t.stack == s.stack
  {
    r := ServeHead(run, s, m);
    var s1 := Pop(s);
    assert s1.ready == [y, z] + rest;
    r := ServeHead(r, s1, m);
    var s2 := Pop(s1);
    assert s2.ready == [z] + rest;
    r := ServeHead(r, s2, m);
    t := Pop(s2);
  }

  /** The first handler has served the three short jobs and runs D2. */
  lemma RunsD2() returns (run: seq<Event>, s: State)
    ensures Leads(run, s, 1) && s.ready == [Item(2, 200100000, 2), Item(4, 200100000, 4)] && s.free == [3, 1, 0]
    ensures s.stack == Handler([], Running(s.ready[0]), Main(Look))
  {
    var d2, d4 := Item(2, 200100000, 2), Item(4, 200100000, 4);
    var orders := FirstOrders();
    s := FirstBatch(orders);
    run := Tick([], Start(5), 0);
    s := s.(stack := Handler([], Look, Main(Look)));
    run, s := ServeThree(run, s, 1, Item(0, 50100000, 0), Item(1, 50100000, 1), Item(3, 50100000, 3), [d2, d4]);
    run := StartHead(run, s, 1);
    s := At(s, Running(d2));
  }

  /** The second handler serves its batch and is about to peek again. */
  lemma SecondHandler(run: seq<Event>, s: State) returns (r: seq<Event>, t: State)
    requires Leads(run, s, 1) && s.ready == [Item(2, 200100000, 2), Item(4, 200100000, 4)] && s.free == [3, 1, 0]
    ensures Leads(r, t, 2) && t.ready == s.ready && |t.free| == 3 && t.stack == Handler(s.ready, Look, s.stack)
  {
    var orders := ShortOrders(1);
    var added := AddAll(s, orders);
    AddAllThree(s, orders);
    AddThree(s, orders[0], orders[1], orders[2]);
    r := Tick(run, s, 1);
    t := added.(stack := Handler(s.ready, Look, s.stack));
    r, t := ServeThree(r, t, 2, Item(3, 100100000, 0), Item(1, 100100000, 1), Item(0, 100100000, 3), s.ready);
  }

  /** When the third one comes, both it and the second have preempted D2. Five records suffice. */
  lemma SameJobPreemptedTwice() returns (run: seq<Event>)
    ensures OnSchedule(run, 0) && Interrupts(run) == 3 && After(Start(5), run).Next?
    ensures var k := After(Start(5), run).s.stack;
            && Depth(k) == 3 && Found(k) != [] && Found(k.below) != []
            && Found(k)[0] == Found(k.below)[0] == Item(2, 200100000, 2)
  {
    var s, t;
    run, s := RunsD2();
    run, t := SecondHandler(run, s);
    var orders := ShortOrders(2);
    run := Tick(run, t, 2);
    var last := Fire(t, Interrupt(BatchOf(2))).s;
    assert last.stack == Handler(t.ready, Look, Handler(s.ready, Look, s.stack));
    assert Depth(s.stack) == 1;
  }
}
