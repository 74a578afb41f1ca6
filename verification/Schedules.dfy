/** What the two handlers queue: earliest deadline first in t6.c, rate classes in t5.c. */
module Schedules {
  import opened Numbers
  import opened ReadyList
  import opened Preemption
  import opened PreemptionTheorems

  // deadlines are unsigned 32-bit numbers of nanoseconds
  const SHORT: nat := 50000000
  const LONG: nat := 200000000

  /** ready_queue_add(task, exception_ns_l + offset, id) at the true time at. */
  function ByDeadline(at: nat, offset: nat, id: int): Order {
    Order((at % UINT32 + offset) % UINT32, at + offset, id)
  }

  /** The switch of t6.c. */
  function EdfOrders(tick: nat, at: nat): seq<Order> {
    if tick == 0 then
      [ByDeadline(at, SHORT, 0), ByDeadline(at, SHORT, 1), ByDeadline(at, LONG, 2), ByDeadline(at, SHORT, 3),
       ByDeadline(at, LONG, 4)]
    else if tick <= 3 then
      [ByDeadline(at, SHORT, 0), ByDeadline(at, SHORT, 1), ByDeadline(at, SHORT, 3)]
    else
      []
  }

  /** The switch of t5.c: the class is the priority. */
  function RateOrders(tick: nat): seq<Order> {
    if tick == 0 then [Order(0, 0, 4), Order(0, 0, 5), Order(1, 0, 6), Order(2, 0, 7)]
    else if tick == 1 || tick == 3 then [Order(0, 0, 4), Order(0, 0, 5)]
    else if tick == 2 then [Order(0, 0, 4), Order(0, 0, 5), Order(1, 0, 6)]
    else []
  }

  /** tick is unsigned: the assignment of -1 is undone by the increment behind the switch. */
  function NextTick(tick: nat): nat {
    ((if tick == 3 then UINT32 - 1 else if tick < 3 then tick else 0) + 1) % UINT32
  }

  function TickAfter(k: nat): nat {
    if k == 0 then 0 else NextTick(TickAfter(k - 1))
  }

  /** The handlers go round the four cases; the default case is never taken. */
  lemma {:induction false} TicksCycle(k: nat)
    ensures TickAfter(k) == k % 4
  {
    if k > 0 { TicksCycle(k - 1); }
  }

  /** The interrupts of the run bring the batches of t6.c, starting with this tick. */
  ghost predicate FollowsEdf(run: seq<Event>, tick: nat) {
    run == [] || (
      if run[0].Interrupt?
      then (exists at: nat :: run[0].orders == EdfOrders(tick, at)) && FollowsEdf(run[1..], NextTick(tick))
      else FollowsEdf(run[1..], tick))
  }

  /** The same for t5.c. */
  ghost predicate FollowsRates(run: seq<Event>, tick: nat) {
    run == [] || (
      if run[0].Interrupt? then run[0].orders == RateOrders(tick) && FollowsRates(run[1..], NextTick(tick))
      else FollowsRates(run[1..], tick))
  }

  // ---------------------------------------------------------------- what comes, and how often

  /** How many of the orders are for this job. */
  function Copies(orders: seq<Order>, id: int): nat {
    if orders == [] then 0 else (if orders[0].id == id then 1 else 0) + Copies(orders[1..], id)
  }

  lemma OneOrder(orders: seq<Order>, a: Order, rest: seq<Order>, prio: int, id: int)
    requires orders == [a] + rest
    ensures Copies(orders, id) == (if a.id == id then 1 else 0) + Copies(rest, id)
    ensures Ordered(orders)[(prio, id)] == (if a.prio == prio && a.id == id then 1 else 0) + Ordered(rest)[(prio, id)]
  {
    assert orders[1..] == rest;
  }

  lemma ThreeOrders(a: Order, b: Order, c: Order, prio: int, id: int)
    requires a.id != b.id && a.id != c.id && b.id != c.id
    ensures Copies([a, b, c], id) == if id == a.id || id == b.id || id == c.id then 1 else 0
    ensures Ordered([a, b, c])[(prio, id)] ==
              if (id == a.id && prio == a.prio) || (id == b.id && prio == b.prio) || (id == c.id && prio == c.prio)
              then 1 else 0
  {
    OneOrder([a, b, c], a, [b, c], prio, id);
    OneOrder([b, c], b, [c], prio, id);
    OneOrder([c], c, [], prio, id);
  }

  /** The orders of t6.c's batches in numbers: C1, D1 and D3 due in 50 ms each time, and D2 and D4 due in
      200 ms in the first of each four; the priority is the low half of the deadline. */
  lemma EdfBatch(tick: nat, at: nat)
    requires tick < 4
    ensures var soon, late := at + 50000000, at + 200000000;
            var p, q := soon % 0x1_0000_0000, late % 0x1_0000_0000;
            multiset(EdfOrders(tick, at)) ==
              multiset{Order(p, soon, 0), Order(p, soon, 1), Order(p, soon, 3)}
              + if tick == 0 then multiset{Order(q, late, 2), Order(q, late, 4)} else multiset{}
  {
    LowHalves(at);
    var c1, d1, d2 := ByDeadline(at, SHORT, 0), ByDeadline(at, SHORT, 1), ByDeadline(at, LONG, 2);
    var d3, d4 := ByDeadline(at, SHORT, 3), ByDeadline(at, LONG, 4);
    if tick == 0 {
      assert EdfOrders(tick, at) == [c1, d1, d2, d3, d4];
      assert multiset([c1, d1, d2, d3, d4]) == multiset{c1, d1, d3} + multiset{d2, d4};
    } else {
      assert multiset([c1, d1, d3]) == multiset{c1, d1, d3};
    }
  }

  lemma LowHalves(at: nat)
    ensures ByDeadline(at, SHORT, 0).prio == ByDeadline(at, SHORT, 1).prio == ByDeadline(at, SHORT, 3).prio
            == (at + 50000000) % 0x1_0000_0000
    ensures ByDeadline(at, LONG, 2).prio == ByDeadline(at, LONG, 4).prio == (at + 200000000) % 0x1_0000_0000
  {
    ByDeadlineStamped(at, SHORT, 0);
    ByDeadlineStamped(at, LONG, 2);
  }

  /** So many of each. */
  lemma EdfCounts(tick: nat, at: nat, prio: int, id: int)
    requires tick < 4
    ensures Copies(EdfOrders(tick, at), id) ==
              if id == 0 || id == 1 || id == 3 || (tick == 0 && (id == 2 || id == 4)) then 1 else 0
    ensures Ordered(EdfOrders(tick, at))[(prio, id)] ==
              if (prio == (at + 50000000) % 0x1_0000_0000 && (id == 0 || id == 1 || id == 3))
                 || (tick == 0 && prio == (at + 200000000) % 0x1_0000_0000 && (id == 2 || id == 4)) then 1 else 0
  {
    LowHalves(at);
    var c1, d1, d2 := ByDeadline(at, SHORT, 0), ByDeadline(at, SHORT, 1), ByDeadline(at, LONG, 2);
    var d3, d4 := ByDeadline(at, SHORT, 3), ByDeadline(at, LONG, 4);
    if tick == 0 {
      OneOrder([c1, d1, d2, d3, d4], c1, [d1, d2, d3, d4], prio, id);
      OneOrder([d1, d2, d3, d4], d1, [d2, d3, d4], prio, id);
      ThreeOrders(d2, d3, d4, prio, id);
    } else {
      ThreeOrders(c1, d1, d3, prio, id);
    }
  }

  /** The priorities and ids that an activation of t6.c at this time is to queue. */
  function ToCome(first: bool, at: nat): multiset<(int, int)> {
    var soon, late := (at + 50000000) % 0x1_0000_0000, (at + 200000000) % 0x1_0000_0000;
    multiset{(soon, 0), (soon, 1), (soon, 3)} + if first then multiset{(late, 2), (late, 4)} else multiset{}
  }

  lemma ToComeAt(first: bool, at: nat, prio: int, id: int)
    ensures ToCome(first, at)[(prio, id)] ==
              if (prio == (at + 50000000) % 0x1_0000_0000 && (id == 0 || id == 1 || id == 3))
                 || (first && prio == (at + 200000000) % 0x1_0000_0000 && (id == 2 || id == 4)) then 1 else 0
  {
    var soon, late := (at + 50000000) % 0x1_0000_0000, (at + 200000000) % 0x1_0000_0000;
    Displays(soon, late, prio, id);
  }

  lemma Displays(soon: int, late: int, prio: int, id: int)
    ensures multiset{(soon, 0), (soon, 1), (soon, 3)}[(prio, id)] ==
              if prio == soon && (id == 0 || id == 1 || id == 3) then 1 else 0
    ensures multiset{(late, 2), (late, 4)}[(prio, id)] == if prio == late && (id == 2 || id == 4) then 1 else 0
  {
  }

  lemma EdfComes(tick: nat, at: nat)
    requires tick < 4
    ensures Ordered(EdfOrders(tick, at)) == ToCome(tick == 0, at)
  {
    forall prio: int, id: int
      ensures Ordered(EdfOrders(tick, at))[(prio, id)] == ToCome(tick == 0, at)[(prio, id)]
    {
      EdfCounts(tick, at, prio, id);
      ToComeAt(tick == 0, at, prio, id);
    }
    SameCounts(Ordered(EdfOrders(tick, at)), ToCome(tick == 0, at));
  }

  lemma SameCounts(a: multiset<(int, int)>, b: multiset<(int, int)>)
    requires forall p: int, i: int :: a[(p, i)] == b[(p, i)]
    ensures a == b
  {
    forall x: (int, int) ensures a[x] == b[x] {
      var (p, i) := x;
      assert a[(p, i)] == b[(p, i)];
    }
  }

  /** The orders of t5.c's batches: B4 and B5 in class 0 each time, B6 in class 1 every other time, B7 in
      class 2 every fourth. */
  lemma RateBatch(tick: nat)
    requires tick < 4
    ensures multiset(RateOrders(tick)) ==
              multiset{Order(0, 0, 4), Order(0, 0, 5)}
              + (if tick % 2 == 0 then multiset{Order(1, 0, 6)} else multiset{})
              + if tick == 0 then multiset{Order(2, 0, 7)} else multiset{}
  {
    var b4, b5, b6, b7 := Order(0, 0, 4), Order(0, 0, 5), Order(1, 0, 6), Order(2, 0, 7);
    if tick == 0 {
      assert multiset([b4, b5, b6, b7]) == multiset{b4, b5} + multiset{b6} + multiset{b7};
    } else if tick == 2 {
      assert multiset([b4, b5, b6]) == multiset{b4, b5} + multiset{b6} + multiset{};
    } else {
      assert multiset([b4, b5]) == multiset{b4, b5} + multiset{} + multiset{};
    }
  }

  lemma RateCounts(tick: nat, id: int)
    requires tick < 4
    ensures Copies(RateOrders(tick), id) ==
              if id == 4 || id == 5 || (tick % 2 == 0 && id == 6) || (tick == 0 && id == 7) then 1 else 0
  {
    var b4, b5, b6, b7 := Order(0, 0, 4), Order(0, 0, 5), Order(1, 0, 6), Order(2, 0, 7);
    if tick == 0 {
      OneOrder([b4, b5, b6, b7], b4, [b5, b6, b7], 0, id);
      ThreeOrders(b5, b6, b7, 0, id);
    } else if tick == 2 {
      ThreeOrders(b4, b5, b6, 0, id);
    } else {
      OneOrder([b4, b5], b4, [b5], 0, id);
      OneOrder([b5], b5, [], 0, id);
    }
  }

  function Interrupts(run: seq<Event>): nat {
    if run == [] then 0 else (if run[0].Interrupt? then 1 else 0) + Interrupts(run[1..])
  }

  /** How often the job came over a run. */
  function Arrivals(run: seq<Event>, id: int): nat {
    if run == [] then 0
    else (if run[0].Interrupt? then Copies(run[0].orders, id) else 0) + Arrivals(run[1..], id)
  }

  /** How many of the first m activations are the first of four. */
  function Fourths(m: nat): nat {
    if m == 0 then 0 else Fourths(m - 1) + if (m - 1) % 4 == 0 then 1 else 0
  }

  lemma {:induction false} FourthsIs(m: nat)
    ensures Fourths(m) == (m + 3) / 4
  {
    if m > 0 { FourthsIs(m - 1); }
  }

  /** And how many the first of two. */
  function Seconds(m: nat): nat {
    if m == 0 then 0 else Seconds(m - 1) + if (m - 1) % 2 == 0 then 1 else 0
  }

  lemma {:induction false} SecondsIs(m: nat)
    ensures Seconds(m) == (m + 1) / 2
  {
    if m > 0 { SecondsIs(m - 1); }
  }

  lemma NextIs(k: nat)
    ensures NextTick(k % 4) == (k + 1) % 4
  {
    TicksCycle(k);
    TicksCycle(k + 1);
  }

  lemma EdfMore(k: nat, tick: nat, at: nat, id: int)
    requires tick == k % 4
    ensures Copies(EdfOrders(tick, at), id) ==
              if id == 0 || id == 1 || id == 3 then 1
              else if id == 2 || id == 4 then Fourths(k + 1) - Fourths(k)
              else 0
  {
    EdfCounts(tick, at, 0, id);
  }

  lemma {:induction false} EdfArrivals(run: seq<Event>, k: nat, tick: nat, end: nat, id: int)
    requires tick == k % 4 && FollowsEdf(run, tick) && end == k + Interrupts(run)
    ensures Arrivals(run, id) ==
              if id == 0 || id == 1 || id == 3 then end - k
              else if id == 2 || id == 4 then Fourths(end) - Fourths(k)
              else 0
    decreases |run|
  {
    if run != [] {
      if run[0].Interrupt? {
        var at: nat :| run[0].orders == EdfOrders(tick, at);
        EdfMore(k, tick, at, id);
        NextIs(k);
        EdfArrivals(run[1..], k + 1, NextTick(tick), end, id);
      } else {
        EdfArrivals(run[1..], k, tick, end, id);
      }
    }
  }

  /** After m activations of t6.c, whenever they came, C1, D1 and D3 have come m times, D2 and D4 at every
      fourth, the first included, and nothing else. */
  lemma EdfArrivalsExactly(run: seq<Event>, id: int)
    requires FollowsEdf(run, 0)
    ensures var m := Interrupts(run);
            Arrivals(run, id) == if id == 0 || id == 1 || id == 3 then m
                                 else if id == 2 || id == 4 then (m + 3) / 4 else 0
  {
    EdfArrivals(run, 0, 0, Interrupts(run), id);
    FourthsIs(Interrupts(run));
  }

  lemma Parity(k: nat)
    ensures k % 4 % 2 == k % 2
  {
    assert k % 4 == k - 2 * (2 * (k / 4));
  }

  lemma RateMore(k: nat, tick: nat, id: int)
    requires tick == k % 4
    ensures Copies(RateOrders(tick), id) ==
              if id == 4 || id == 5 then 1
              else if id == 6 then Seconds(k + 1) - Seconds(k)
              else if id == 7 then Fourths(k + 1) - Fourths(k)
              else 0
  {
    Parity(k);
    RateCounts(tick, id);
  }

  lemma {:induction false} RateArrivals(run: seq<Event>, k: nat, tick: nat, end: nat, id: int)
    requires tick == k % 4 && FollowsRates(run, tick) && end == k + Interrupts(run)
    ensures Arrivals(run, id) ==
              if id == 4 || id == 5 then end - k
              else if id == 6 then Seconds(end) - Seconds(k)
              else if id == 7 then Fourths(end) - Fourths(k)
              else 0
    decreases |run|
  {
    if run != [] {
      if run[0].Interrupt? {
        RateMore(k, tick, id);
        NextIs(k);
        RateArrivals(run[1..], k + 1, NextTick(tick), end, id);
      } else {
        RateArrivals(run[1..], k, tick, end, id);
      }
    }
  }

  /** After m activations of t5.c, B4 and B5 have come m times, B6 at every second and B7 at every fourth. */
  lemma RateArrivalsExactly(run: seq<Event>, id: int)
    requires FollowsRates(run, 0)
    ensures var m := Interrupts(run);
            Arrivals(run, id) == if id == 4 || id == 5 then m else if id == 6 then (m + 1) / 2
                                 else if id == 7 then (m + 3) / 4 else 0
  {
    RateArrivals(run, 0, 0, Interrupts(run), id);
    FourthsIs(Interrupts(run));
    SecondsIs(Interrupts(run));
  }

  // ---------------------------------------------------------------- priorities and deadlines

  /** Every queued job's priority and true deadline are so related. */
  ghost predicate Queued(s: State, related: (int, nat) -> bool) {
    forall i :: 0 <= i < |s.ready| ==> s.ready[i].node in s.due && related(s.ready[i].prio, s.due[s.ready[i].node])
  }

  /** The priority is the low half of the true deadline. */
  predicate Stamp(prio: int, due: nat) {
    prio == due % UINT32
  }

  ghost predicate Stamped(s: State) {
    Queued(s, Stamp)
  }

  lemma EdfOrdersStamped(tick: nat, at: nat)
    ensures forall o :: o in EdfOrders(tick, at) ==> Stamp(o.prio, o.due)
  {
    ByDeadlineStamped(at, SHORT, 0);
    ByDeadlineStamped(at, SHORT, 1);
    ByDeadlineStamped(at, LONG, 2);
    ByDeadlineStamped(at, SHORT, 3);
    ByDeadlineStamped(at, LONG, 4);
  }

  lemma ByDeadlineStamped(at: nat, offset: nat, id: int)
    ensures Stamp(ByDeadline(at, offset, id).prio, ByDeadline(at, offset, id).due)
  {
    assert at + offset == at / UINT32 * UINT32 + (at % UINT32 + offset);
  }

  lemma AddOneQueued(n: nat, s: State, o: Order, related: (int, nat) -> bool)
    requires s.free != [] && Pooled(n, s.ready, s.free) && Queued(s, related) && related(o.prio, o.due)
    ensures Queued(AddOne(s, o), related)
  {
    var x := Item(s.free[0], o.prio, o.id);
    var ready, due := Insert(s.ready, x), s.due[s.free[0] := o.due];
    assert AddOne(s, o).ready == ready && AddOne(s, o).due == due;
    forall i | 0 <= i < |ready| ensures ready[i].node in due && related(ready[i].prio, due[ready[i].node]) {
      InsertAt(s.ready, x, i);
      if i != Place(s.ready, x.prio) {
        var j := if i < Place(s.ready, x.prio) then i else i - 1;
        assert ready[i] == s.ready[j] && s.ready[j].node != s.free[0];
      }
    }
  }

  lemma {:induction false} AddAllQueued(n: nat, s: State, orders: seq<Order>, related: (int, nat) -> bool)
    requires |orders| <= |s.free| && Pooled(n, s.ready, s.free) && Queued(s, related)
    requires forall o :: o in orders ==> related(o.prio, o.due)
    ensures Queued(AddAll(s, orders), related)
    decreases |orders|
  {
    if orders != [] {
      AddOneQueued(n, s, orders[0], related);
      AddPooled(n, s.ready, s.free, Item(s.free[0], orders[0].prio, orders[0].id));
      AddAllQueued(n, AddOne(s, orders[0]), orders[1..], related);
    }
  }

  /** Every order of the run is so related. */
  ghost predicate Brings(run: seq<Event>, related: (int, nat) -> bool) {
    forall i :: 0 <= i < |run| && run[i].Interrupt? ==> forall o :: o in run[i].orders ==> related(o.prio, o.due)
  }

  lemma FireQueued(n: nat, s: State, e: Event, related: (int, nat) -> bool)
    requires Inv(n, s) && Queued(s, related) && Fire(s, e).Next?
    requires e.Interrupt? ==> forall o :: o in e.orders ==> related(o.prio, o.due)
    ensures Queued(Fire(s, e).s, related)
  {
    if e.Interrupt? { AddAllQueued(n, s, e.orders, related); }
  }

  lemma {:induction false} RunQueued(n: nat, s: State, run: seq<Event>, related: (int, nat) -> bool)
    requires Inv(n, s) && Queued(s, related) && After(s, run).Next? && Brings(run, related)
    ensures Inv(n, After(s, run).s) && Queued(After(s, run).s, related)
    decreases |run|
  {
    if run != [] {
      FireKeepsInv(n, s, run[0]);
      FireQueued(n, s, run[0], related);
      RunQueued(n, Fire(s, run[0]).s, run[1..], related);
    }
  }

  lemma {:induction false} EdfBrings(run: seq<Event>, tick: nat)
    requires FollowsEdf(run, tick)
    ensures Brings(run, Stamp)
  {
    if run != [] {
      if run[0].Interrupt? {
        var at: nat :| run[0].orders == EdfOrders(tick, at);
        EdfOrdersStamped(tick, at);
      }
      EdfBrings(run[1..], if run[0].Interrupt? then NextTick(tick) else tick);
      forall i | 0 <= i < |run| && run[i].Interrupt? ensures forall o :: o in run[i].orders ==> Stamp(o.prio, o.due) {
        if i > 0 { assert run[1..][i - 1] == run[i]; }
      }
    }
  }

  /** The next step starts a job. */
  predicate Dispatches(s: State) {
    s.stack.pc.Decide? && !Finished(Found(s.stack), s.stack.pc.run)
  }

  /** Whoever starts a job starts a most urgent one: at every start in every run from an empty queue
      the job is the head, nothing queued has a smaller priority, and of its equals it came first. */
  lemma StartsMostUrgent(n: nat, run: seq<Event>)
    requires After(Start(n), run).Next? && Dispatches(After(Start(n), run).s)
    ensures var s := After(Start(n), run).s;
            s.ready != [] && Advanced(s) == Next(At(s, Running(s.ready[0])))
            && (forall i :: 0 <= i < |s.ready| ==> s.ready[0].prio <= s.ready[i].prio)
            && forall i :: 0 < i < |s.ready| && s.ready[i].prio == s.ready[0].prio ==>
                 && s.ready[0].node in s.since && s.ready[i].node in s.since
                 && s.since[s.ready[0].node] < s.since[s.ready[i].node]
  {
    StartInv(n);
    RunKeepsInv(n, Start(n), run);
    RunKeepsArrival(n, Start(n), run);
  }

  /** For t6.c this means the earliest true deadline exactly when no queued deadline lies in an earlier
      stretch of 2^32 nanoseconds than the head's: wrapped deadlines are taken for early ones. */
  lemma EarliestDeadlineExactly(run: seq<Event>)
    requires After(Start(5), run).Next? && FollowsEdf(run, 0) && Dispatches(After(Start(5), run).s)
    ensures var s := After(Start(5), run).s;
            && s.ready != [] && Stamped(s)
            && ((forall i :: 0 <= i < |s.ready| ==> s.due[s.ready[0].node] <= s.due[s.ready[i].node]) <==>
                (forall i :: 0 <= i < |s.ready| ==> s.due[s.ready[0].node] / UINT32 <= s.due[s.ready[i].node] / UINT32))
  {
    StartInv(5);
    EdfBrings(run, 0);
    RunQueued(5, Start(5), run, Stamp);
    StartsMostUrgent(5, run);
    var s := After(Start(5), run).s;
    forall i | 0 <= i < |s.ready|
      ensures s.due[s.ready[0].node] <= s.due[s.ready[i].node] <==>
              s.due[s.ready[0].node] / UINT32 <= s.due[s.ready[i].node] / UINT32
    {
      LowHalfOrder(s.due[s.ready[0].node], s.due[s.ready[i].node]);
    }
  }

  lemma LowHalfOrder(a: nat, b: nat)
    requires a % UINT32 <= b % UINT32
    ensures a <= b <==> a / UINT32 <= b / UINT32
  {
  }

  predicate Class(prio: int, due: nat) {
    0 <= prio <= 2 && due == 0
  }

  lemma {:induction false} RatesBring(run: seq<Event>, tick: nat)
    requires FollowsRates(run, tick)
    ensures Brings(run, Class)
  {
    if run != [] {
      RatesBring(run[1..], if run[0].Interrupt? then NextTick(tick) else tick);
      forall i | 0 <= i < |run| && run[i].Interrupt? ensures forall o :: o in run[i].orders ==> Class(o.prio, o.due) {
        if i > 0 { assert run[1..][i - 1] == run[i]; }
      }
    }
  }

  /** For t5.c: a job of one of the three classes starts only when nothing of a faster class is queued. */
  lemma FasterClassesFirst(run: seq<Event>)
    requires After(Start(5), run).Next? && FollowsRates(run, 0) && Dispatches(After(Start(5), run).s)
    ensures var s := After(Start(5), run).s;
            && s.ready != [] && 0 <= s.ready[0].prio
            && forall i :: 0 <= i < |s.ready| ==> s.ready[0].prio <= s.ready[i].prio <= 2
  {
    StartInv(5);
    RatesBring(run, 0);
    RunQueued(5, Start(5), run, Class);
    StartsMostUrgent(5, run);
  }

  predicate IsDue(s: State, i: nat, prio: int, due: nat)
    requires i < |s.ready|
  {
    s.ready[i].prio == prio && s.ready[i].node in s.due && s.due[s.ready[i].node] == due
  }

  /** A job with this priority and true deadline is queued. */
  ghost predicate Waiting(s: State, prio: int, due: nat) {
    exists i :: 0 <= i < |s.ready| && IsDue(s, i, prio, due)
  }

  lemma AddOneWaiting(n: nat, s: State, o: Order, prio: int, due: nat)
    requires s.free != [] && Pooled(n, s.ready, s.free)
    requires Waiting(s, prio, due) || (o.prio == prio && o.due == due)
    ensures Waiting(AddOne(s, o), prio, due)
  {
    var k := Place(s.ready, o.prio);
    InsertAt(s.ready, Item(s.free[0], o.prio, o.id), k);
    if o.prio == prio && o.due == due {
      assert IsDue(AddOne(s, o), k, prio, due);
    } else {
      var i :| 0 <= i < |s.ready| && IsDue(s, i, prio, due);
      StillDue(n, s, o, i, prio, due);
    }
  }

  lemma StillDue(n: nat, s: State, o: Order, i: nat, prio: int, due: nat)
    requires s.free != [] && Pooled(n, s.ready, s.free) && i < |s.ready| && IsDue(s, i, prio, due)
    ensures Waiting(AddOne(s, o), prio, due)
  {
    var x := Item(s.free[0], o.prio, o.id);
    var j := if i < Place(s.ready, o.prio) then i else i + 1;
    InsertAt(s.ready, x, j);
    assert s.ready[i].node != s.free[0];
    assert AddOne(s, o).ready[j] == s.ready[i] && IsDue(AddOne(s, o), j, prio, due);
  }

  lemma {:induction false} AddAllWaiting(n: nat, s: State, orders: seq<Order>, prio: int, due: nat)
    requires |orders| <= |s.free| && Pooled(n, s.ready, s.free)
    requires Waiting(s, prio, due) || exists i :: 0 <= i < |orders| && orders[i].prio == prio && orders[i].due == due
    ensures Waiting(AddAll(s, orders), prio, due)
    decreases |orders|
  {
    if orders != [] {
      var r := AddOne(s, orders[0]);
      AddPooled(n, s.ready, s.free, Item(s.free[0], orders[0].prio, orders[0].id));
      if Waiting(s, prio, due) || (orders[0].prio == prio && orders[0].due == due) {
        AddOneWaiting(n, s, orders[0], prio, due);
      } else {
        var i :| 0 <= i < |orders| && orders[i].prio == prio && orders[i].due == due;
        assert orders[1..][i - 1] == orders[i];
      }
      AddAllWaiting(n, r, orders[1..], prio, due);
    }
  }

  /** The first batch of t6.c needs the whole pool of five: it fits exactly when every earlier job has
      ended, and then no active call has a job to go back to. */
  lemma FullBatchNeedsIdle(s: State, at: nat)
    requires Inv(5, s)
    ensures |EdfOrders(0, at)| <= |s.free| <==> s.ready == []
    ensures s.ready == [] ==>
              forall d :: 0 <= d <= Depth(s.stack) ==> Found(Call(s.stack, d)) == [] && !Call(s.stack, d).pc.Running?
  {
    if s.ready == [] {
      forall d | 0 <= d <= Depth(s.stack) ensures Found(Call(s.stack, d)) == [] && !Call(s.stack, d).pc.Running? {
        CallFits(s.stack, s.ready, d);
        if d > 0 { CallFits(s.stack, s.ready, d - 1); SeenIsFound(s.stack, s.ready, d); }
      }
    }
  }
}
