/** What holds over every run of nested handlers, pops and the main loop. */
module PreemptionTheorems {
  import opened ReadyList
  import opened Preemption

  function After(s: State, run: seq<Event>): Outcome
    decreases |run|
  {
    if run == [] then Next(s)
    else match Fire(s, run[0])
      case Crash => Crash
      case Next(r) => After(r, run[1..])
  }

  /** Every interrupt of the run finds as many free records as it brings jobs. */
  predicate Roomy(s: State, run: seq<Event>)
    decreases |run|
  {
    run == [] || (
      && (run[0].Interrupt? ==> |run[0].orders| <= |s.free|)
      && (Fire(s, run[0]).Next? ==> Roomy(Fire(s, run[0]).s, run[1..])))
  }

  lemma StartInv(n: nat)
    ensures Inv(n, Start(n))
  {
  }

  /** From the start, a run reads through null exactly when some batch finds too few free records;
      otherwise it keeps the invariant: the lists are the pool, and every active call's own head is
      as that call left it. */
  lemma {:induction false} RunKeepsInv(n: nat, s: State, run: seq<Event>)
    requires Inv(n, s)
    ensures After(s, run).Next? <==> Roomy(s, run)
    ensures Roomy(s, run) ==> Inv(n, After(s, run).s)
    decreases |run|
  {
    if run != [] {
      FireKeepsInv(n, s, run[0]);
      if Fire(s, run[0]).Next? {
        RunKeepsInv(n, Fire(s, run[0]).s, run[1..]);
      }
    }
  }

  // ------------------------------------------------------------------------- the stack of calls

  function Depth(k: Stack): nat {
    if k.Main? then 0 else 1 + Depth(k.below)
  }

  /** The call d levels below the running one. */
  function Call(k: Stack, d: nat): Stack
    requires d <= Depth(k)
  {
    if d == 0 then k else Call(k.below, d - 1)
  }

  /** The list that call will see when it runs again. */
  ghost function Seen(k: Stack, seen: seq<Item>, d: nat): seq<Item>
    requires d <= Depth(k)
  {
    if d == 0 then seen else Seen(k.below, k.found, d - 1)
  }

  lemma {:induction false} CallFits(k: Stack, seen: seq<Item>, d: nat)
    requires Chain(k, seen) && d <= Depth(k)
    ensures Chain(Call(k, d), Seen(k, seen, d))
    ensures Kept(Found(Call(k, d)), seen)
  {
    if d > 0 {
      CallFits(k.below, k.found, d - 1);
      KeptTrans(Found(Call(k, d)), k.found, seen);
    }
  }

  lemma {:induction false} KeptBetween(k: Stack, seen: seq<Item>, i: nat, j: nat)
    requires Chain(k, seen) && i <= j <= Depth(k)
    ensures Kept(Found(Call(k, j)), Found(Call(k, i)))
  {
    if i > 0 {
      KeptBetween(k.below, k.found, i - 1, j - 1);
    } else if j > 0 {
      CallFits(k.below, k.found, j - 1);
    } else {
      KeptSame(Found(k));
    }
  }

  lemma SeenIsFound(k: Stack, seen: seq<Item>, d: nat)
    requires 0 < d <= Depth(k)
    ensures Seen(k, seen, d) == Found(Call(k, d - 1))
  {
  }

  /** The call d levels down was preempted with its loop not over: the test run != current would have
      held of the head it saw then. */
  ghost predicate Unfinished(s: State, d: nat)
    requires d <= Depth(s.stack)
  {
    !Finished(Found(Call(s.stack, d)), HeadOf(Seen(s.stack, s.ready, d)))
  }

  /** Every preempted job is still queued, in the order of the calls: the job the inner call i
      preempted is the one the outer call j preempted or stands in front of it. It is strictly more
      urgent exactly when some call between them was preempted with its loop not over. */
  lemma StackOrder(n: nat, s: State, i: nat, j: nat) returns (p: nat, q: nat)
    requires Inv(n, s) && i < j <= Depth(s.stack) && Found(Call(s.stack, j)) != []
    ensures Found(Call(s.stack, i)) != [] && p <= q < |s.ready|
    ensures s.ready[p] == Found(Call(s.stack, i))[0] && s.ready[q] == Found(Call(s.stack, j))[0]
    ensures p < q <==> s.ready[p].prio < s.ready[q].prio
    ensures p < q <==> exists d :: i < d <= j && Unfinished(s, d)
  {
    var k := s.stack;
    var inner, outer := Found(Call(k, i)), Found(Call(k, j));
    KeptBetween(k, s.ready, i, j);
    CallFits(k, s.ready, i);
    CallFits(k, s.ready, j);
    p := KeptFirst(inner, s.ready);
    q := KeptFirst(outer, s.ready);
    if d :| i < d <= j && Unfinished(s, d) {
      StrictPast(s, i, d, j);
    } else {
      SameThroughout(s, i, j);
    }
  }

  /** A call preempted with its loop not over separates the calls above it from those below. */
  lemma StrictPast(s: State, i: nat, d: nat, j: nat)
    requires Chain(s.stack, s.ready) && i < d <= j <= Depth(s.stack) && Unfinished(s, d)
    requires Found(Call(s.stack, j)) != []
    ensures Found(Call(s.stack, i)) != [] && Found(Call(s.stack, i))[0].prio < Found(Call(s.stack, j))[0].prio
  {
    KeptBetween(s.stack, s.ready, d, j);
    KeptBetween(s.stack, s.ready, i, d - 1);
    CallFits(s.stack, s.ready, d);
    SeenIsFound(s.stack, s.ready, d);
  }

  /** If every call between had come to the end of its loop, they all preempted the same job. */
  lemma {:induction false} SameThroughout(s: State, i: nat, j: nat)
    requires Chain(s.stack, s.ready) && i <= j <= Depth(s.stack) && Found(Call(s.stack, j)) != []
    requires forall d :: i < d <= j ==> !Unfinished(s, d)
    ensures Found(Call(s.stack, i)) != [] && Found(Call(s.stack, i))[0] == Found(Call(s.stack, j))[0]
  {
    if i < j {
      CallFits(s.stack, s.ready, j);
      assert !Unfinished(s, j);
      HeadRestored(Found(Call(s.stack, j)), Seen(s.stack, s.ready, j));
      SeenIsFound(s.stack, s.ready, j);
      KeptBetween(s.stack, s.ready, j - 1, j);
      SameThroughout(s, i, j - 1);
    }
  }

  /** A call preempted inside a job is one of those. */
  lemma RunningIsUnfinished(n: nat, s: State, d: nat)
    requires Inv(n, s) && d <= Depth(s.stack) && Call(s.stack, d).pc.Running?
    ensures Unfinished(s, d)
  {
    CallFits(s.stack, s.ready, d);
  }

  lemma {:induction false} KeptMember(was: seq<Item>, s: seq<Item>, x: Item)
    requires Kept(was, s) && x in was
    ensures x in s
    decreases |s|
  {
    if x != s[0] {
      KeptMember(if s[0] == was[0] then was[1..] else was, s[1..], x);
    }
  }

  /** The job a call pops is the one it ran, and no call below had it in its list when it began: no
      call pops a job, or reuses a record, that an outer call preempted or found waiting. */
  lemma PopsItsOwn(n: nat, s: State, d: nat, x: Item)
    requires Inv(n, s) && s.stack.pc.Running? && d <= Depth(s.stack) && x in Found(Call(s.stack, d))
    ensures s.ready != [] && s.ready[0] == s.stack.pc.job
    ensures x in s.ready && x.node != s.ready[0].node && s.ready[0].prio < x.prio
  {
    CallFits(s.stack, s.ready, d);
    KeptMember(Found(Call(s.stack, d)), s.ready, x);
    KeptBetween(s.stack, s.ready, 0, d);
    KeptMember(Found(Call(s.stack, d)), Found(s.stack), x);
  }

  // ------------------------------------------------------------------------ a handler's whole life

  /** The handler that found this list over this stack is still active. */
  ghost predicate On(k: Stack, base: Stack, found: seq<Item>) {
    k.Handler? && ((k.below == base && k.found == found) || On(k.below, base, found))
  }

  lemma {:induction false} OnIsDeeper(k: Stack, base: Stack, found: seq<Item>)
    requires On(k, base, found)
    ensures Depth(k) > Depth(base)
  {
    if k.below != base || k.found != found { OnIsDeeper(k.below, base, found); }
  }

  /** One step keeps that handler active or is its own return. */
  lemma StepOn(n: nat, s: State, e: Event, base: Stack, found: seq<Item>)
    requires Inv(n, s) && Fire(s, e).Next? && On(s.stack, base, found)
    ensures var r := Fire(s, e).s;
            On(r.stack, base, found)
            || (r.stack == base && HeadOf(r.ready) == HeadOf(found) && Kept(found, r.ready) && Sorted(r.ready))
  {
    var k := s.stack;
    if e.Advance? && k.pc.Decide? && Finished(k.found, k.pc.run) && !On(k.below, base, found) {
      HeadRestored(found, s.ready);
    }
  }

  /** A handler interrupts any state. Along every later run it is either still active at the end, or
      at some point it returned: the calls it preempted are as they were, the head is the job it
      preempted (or the queue is empty if it was), the jobs it found are all there in their old
      order, and whatever was slipped in between is strictly more urgent than what it precedes. */
  lemma {:induction false} HandlerReturns(n: nat, s: State, base: Stack, found: seq<Item>, run: seq<Event>)
    returns (i: nat)
    requires Inv(n, s) && Roomy(s, run) && On(s.stack, base, found)
    ensures After(s, run).Next? && i <= |run| && After(s, run[..i]).Next?
    ensures On(After(s, run).s.stack, base, found) ||
            var r := After(s, run[..i]).s;
            r.stack == base && HeadOf(r.ready) == HeadOf(found) && Kept(found, r.ready) && Sorted(r.ready)
    decreases |run|
  {
    i := 0;
    RunKeepsInv(n, s, run);
    if run != [] {
      var r := Fire(s, run[0]).s;
      FireKeepsInv(n, s, run[0]);
      StepOn(n, s, run[0], base, found);
      if On(r.stack, base, found) {
        i := HandlerReturns(n, r, base, found, run[1..]);
      }
      assert run[..i + 1][1..] == run[1..][..i];
      i := i + 1;
    }
  }

  /** The same from the interrupt itself: every job more urgent than the preempted one has been run
      and its record freed by the time the handler returns. */
  lemma PreemptedJobNext(n: nat, s: State, orders: seq<Order>, run: seq<Event>) returns (i: nat)
    requires Inv(n, s) && |orders| <= |s.free| && Roomy(Fire(s, Interrupt(orders)).s, run)
    ensures var r := Fire(s, Interrupt(orders)).s;
            && After(r, run).Next? && i <= |run| && After(r, run[..i]).Next?
            && (On(After(r, run).s.stack, s.stack, s.ready) ||
                var t := After(r, run[..i]).s;
                && t.stack == s.stack && Kept(s.ready, t.ready)
                && (s.ready == [] ==> t.ready == [])
                && (s.ready != [] ==>
                      && t.ready != [] && t.ready[0] == s.ready[0]
                      && forall x :: x in t.ready ==> x.prio >= s.ready[0].prio))
  {
    FireKeepsInv(n, s, Interrupt(orders));
    i := HandlerReturns(n, Fire(s, Interrupt(orders)).s, s.stack, s.ready, run);
  }

  /** main goes to sleep, and stays asleep, only over an empty queue: no job is left behind. */
  lemma SleepsOnlyWhenDone(n: nat, s: State)
    requires Inv(n, s) && Call(s.stack, Depth(s.stack)).pc.Sleep?
    ensures Seen(s.stack, s.ready, Depth(s.stack)) == []
    ensures s.stack.Main? ==> s.ready == [] && |s.free| == n
  {
    CallFits(s.stack, s.ready, Depth(s.stack));
  }

  // ---------------------------------------------------------------- first come, first served

  /** Among queued jobs of one priority the earlier arrival stands first. */
  ghost predicate InArrivalOrder(s: State) {
    && (forall i :: 0 <= i < |s.ready| ==>
          s.ready[i].node in s.since && s.since[s.ready[i].node] < |s.ready| + |s.ended|)
    && (forall i, j :: 0 <= i < j < |s.ready| && s.ready[i].prio == s.ready[j].prio ==>
          s.since[s.ready[i].node] < s.since[s.ready[j].node])
  }

  lemma SinceAfterAdd(s: State, o: Order, i: nat)
    requires s.free != [] && InArrivalOrder(s) && i <= |s.ready|
    requires forall j :: 0 <= j < |s.ready| ==> s.ready[j].node != s.free[0]
    ensures var r := AddOne(s, o);
            var k := Place(s.ready, o.prio);
            && |r.ready| == |s.ready| + 1 && r.ready[i].node in r.since
            && r.since[r.ready[i].node] ==
                 (if i == k then |s.ready| + |s.ended| else s.since[s.ready[if i < k then i else i - 1].node])
            && (i == k ==> r.ready[i].prio == o.prio)
            && (i != k ==> r.ready[i].prio == s.ready[if i < k then i else i - 1].prio)
  {
    InsertAt(s.ready, Item(s.free[0], o.prio, o.id), i);
  }

  lemma PairAfterAdd(s: State, o: Order, i: nat, j: nat)
    requires s.free != [] && InArrivalOrder(s) && Sorted(s.ready) && i < j <= |s.ready|
    requires forall j :: 0 <= j < |s.ready| ==> s.ready[j].node != s.free[0]
    ensures var r := AddOne(s, o);
            && |r.ready| == |s.ready| + 1 && r.ready[i].node in r.since && r.ready[j].node in r.since
            && (r.ready[i].prio == r.ready[j].prio ==> r.since[r.ready[i].node] < r.since[r.ready[j].node])
  {
    SinceAfterAdd(s, o, i);
    SinceAfterAdd(s, o, j);
  }

  lemma AddKeepsArrival(s: State, o: Order)
    requires s.free != [] && InArrivalOrder(s) && Sorted(s.ready)
    requires forall j :: 0 <= j < |s.ready| ==> s.ready[j].node != s.free[0]
    ensures InArrivalOrder(AddOne(s, o))
  {
    var r := AddOne(s, o);
    SinceAfterAdd(s, o, 0);
    forall i | 0 <= i < |r.ready|
      ensures r.ready[i].node in r.since && r.since[r.ready[i].node] < |r.ready| + |r.ended|
    {
      SinceAfterAdd(s, o, i);
    }
    forall i, j | 0 <= i < j < |r.ready| && r.ready[i].prio == r.ready[j].prio
      ensures r.since[r.ready[i].node] < r.since[r.ready[j].node]
    {
      PairAfterAdd(s, o, i, j);
    }
  }

  lemma {:induction false} AddAllKeepsArrival(n: nat, s: State, orders: seq<Order>)
    requires |orders| <= |s.free| && Pooled(n, s.ready, s.free) && Sorted(s.ready) && InArrivalOrder(s)
    ensures InArrivalOrder(AddAll(s, orders))
    decreases |orders|
  {
    if orders != [] {
      var x := Item(s.free[0], orders[0].prio, orders[0].id);
      AddKeepsArrival(s, orders[0]);
      AddPooled(n, s.ready, s.free, x);
      InsertMeaning(s.ready, x);
      AddAllKeepsArrival(n, AddOne(s, orders[0]), orders[1..]);
    }
  }

  lemma FireKeepsArrival(n: nat, s: State, e: Event)
    requires Inv(n, s) && InArrivalOrder(s) && Fire(s, e).Next?
    ensures InArrivalOrder(Fire(s, e).s)
  {
    if e.Interrupt? {
      AddAllKeepsArrival(n, s, e.orders);
      assert InArrivalOrder(AddAll(s, e.orders));
    }
  }

  /** In every run, jobs of one priority stand in the order they came, and so leave in it. */
  lemma {:induction false} RunKeepsArrival(n: nat, s: State, run: seq<Event>)
    requires Inv(n, s) && InArrivalOrder(s) && After(s, run).Next?
    ensures InArrivalOrder(After(s, run).s)
    decreases |run|
  {
    if run != [] {
      FireKeepsInv(n, s, run[0]);
      FireKeepsArrival(n, s, run[0]);
      RunKeepsArrival(n, Fire(s, run[0]).s, run[1..]);
    }
  }

  // -------------------------------------------------------------------- no job is lost or run twice

  function Work(s: seq<Item>): multiset<(int, int)> {
    if s == [] then multiset{} else multiset{(s[0].prio, s[0].id)} + Work(s[1..])
  }

  function Ordered(orders: seq<Order>): multiset<(int, int)> {
    if orders == [] then multiset{} else multiset{(orders[0].prio, orders[0].id)} + Ordered(orders[1..])
  }

  function Brought(e: Event): multiset<(int, int)> {
    if e.Interrupt? then Ordered(e.orders) else multiset{}
  }

  function Arrived(run: seq<Event>): multiset<(int, int)> {
    if run == [] then multiset{} else Brought(run[0]) + Arrived(run[1..])
  }

  lemma {:induction false} WorkSplit(a: seq<Item>, b: seq<Item>)
    ensures Work(a + b) == Work(a) + Work(b)
  {
    if a == [] {
      assert a + b == b;
    } else {
      assert (a + b)[1..] == a[1..] + b;
      WorkSplit(a[1..], b);
    }
  }

  lemma WorkInsert(s: seq<Item>, x: Item)
    ensures Work(Insert(s, x)) == Work(s) + multiset{(x.prio, x.id)}
  {
    var k := Place(s, x.prio);
    assert s == s[..k] + s[k..];
    WorkSplit(s[..k], s[k..]);
    WorkSplit(s[..k] + [x], s[k..]);
    WorkSplit(s[..k], [x]);
  }

  lemma {:induction false} WorkAdded(s: State, orders: seq<Order>)
    requires |orders| <= |s.free|
    ensures Work(AddAll(s, orders).ready) == Work(s.ready) + Ordered(orders)
    decreases |orders|
  {
    if orders != [] {
      WorkInsert(s.ready, Item(s.free[0], orders[0].prio, orders[0].id));
      WorkAdded(AddOne(s, orders[0]), orders[1..]);
    }
  }

  lemma WorkPopped(s: State)
    requires s.ready != []
    ensures Work(Pop(s).ready) + Work(Pop(s).ended) == Work(s.ready) + Work(s.ended)
  {
    var one := multiset{(s.ready[0].prio, s.ready[0].id)};
    WorkSplit(s.ended, [s.ready[0]]);
    assert Work([s.ready[0]]) == one;
    assert Work(s.ready) == one + Work(s.ready[1..]);
  }

  lemma WorkStep(s: State, e: Event)
    requires Fire(s, e).Next?
    ensures var r := Fire(s, e).s; Work(r.ready) + Work(r.ended) == Work(s.ready) + Work(s.ended) + Brought(e)
  {
    var r := Fire(s, e).s;
    match e
    case Interrupt(orders) =>
      WorkAdded(s, orders);
      assert r.ready == AddAll(s, orders).ready && r.ended == s.ended;
    case Advance =>
      if s.stack.pc.Running? {
        WorkPopped(s);
        assert r.ready == Pop(s).ready && r.ended == Pop(s).ended;
      } else {
        assert r.ready == s.ready && r.ended == s.ended;
      }
  }

  /** Over every run, the jobs queued and the jobs that ended are together exactly those that arrived. */
  lemma {:induction false} WorkConserved(s: State, run: seq<Event>)
    requires After(s, run).Next?
    ensures var r := After(s, run).s; Work(r.ready) + Work(r.ended) == Work(s.ready) + Work(s.ended) + Arrived(run)
    decreases |run|
  {
    if run != [] {
      WorkStep(s, run[0]);
      WorkConserved(Fire(s, run[0]).s, run[1..]);
    }
  }
}
