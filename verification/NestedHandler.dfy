/** The handler of t6.c over the linked lists, interrupting itself. */
module NestedHandler {
  import opened ReadyList
  import opened ReadyQueue
  import opened PreemptionTheorems
  import Preemption
  import Schedules

  /** What the timer does the next time exceptions are on: nothing, or it fires at this time. */
  datatype Moment = Quiet | Fires(at: nat)

  /** What the start and end messages tell: the jobs started and not yet ended, the innermost last,
      the jobs ended, and the jobs ever queued. */
  datatype Book = Book(running: seq<Item>, ended: multiset<(int, int)>, came: multiset<(int, int)>)

  function Last(s: seq<Item>): Item
    requires s != []
  {
    s[|s| - 1]
  }

  /** The started jobs are strictly more urgent inwards, the head is at least as urgent as the innermost,
      and what came is queued or ended. */
  ghost predicate Fair(b: Book, items: seq<Item>) {
    && (forall i, j :: 0 <= i < j < |b.running| ==> b.running[j].prio < b.running[i].prio)
    && (b.running != [] ==> items != [] && items[0].prio <= Last(b.running).prio)
    && Work(items) + b.ended == b.came
  }

  lemma FairAdd(b: Book, items: seq<Item>, x: Item)
    requires Fair(b, items)
    ensures Fair(b.(came := b.came + multiset{(x.prio, x.id)}), Insert(items, x))
  {
    WorkInsert(items, x);
    InsertAt(items, x, 0);
  }

  /** The head starts over a call whose list was was. */
  lemma FairStart(b: Book, was: seq<Item>, items: seq<Item>)
    requires Fair(b, items) && Kept(was, items) && items != [] && (was != [] ==> items[0].node != was[0].node)
    requires b.running != [] ==> was != [] && was[0].prio <= Last(b.running).prio
    ensures Fair(b.(running := b.running + [items[0]]), items)
  {
  }

  /** The head ends. */
  lemma FairEnd(b: Book, was: seq<Item>, items: seq<Item>)
    requires Fair(b, items) && b.running != [] && items != [] && Kept(was, items[1..])
    requires |b.running| > 1 ==> was != [] && was[0].prio <= b.running[|b.running| - 2].prio
    ensures Fair(b.(running := b.running[..|b.running| - 1],
                    ended := b.ended + multiset{(items[0].prio, items[0].id)}), items[1..])
  {
    var one := multiset{(items[0].prio, items[0].id)};
    assert Work(items) == one + Work(items[1..]);
  }

  /** The queue as a state of the step machine; only its two lists matter here. */
  ghost function View(items: seq<Item>, nodes: seq<nat>): Preemption.State {
    Preemption.State(items, nodes, Preemption.Main(Preemption.Look), map[], map[], [])
  }

  /** The lists and the arrivals a batch is to end with. */
  datatype Goal = Goal(lists: Preemption.State, came: multiset<(int, int)>)

  ghost predicate Leads(
      items: seq<Item>, nodes: seq<nat>, came: multiset<(int, int)>, orders: seq<Preemption.Order>, goal: Goal) {
    && |orders| <= |nodes| && came + Ordered(orders) == goal.came
    && var r := Preemption.AddAll(View(items, nodes), orders); r.ready == goal.lists.ready && r.free == goal.lists.free
  }

  class Edf {
    const q: Queue
    var tick: nat
    ghost var book: Book

    ghost predicate Valid()
      reads this`book, this`tick, q, q.jobs, q.ready, q.free
    {
      q.Valid() && Numbered(q.jobs) && Fair(book, q.Items()) && tick < 4
    }

    constructor (queue: Queue)
      requires queue.Valid() && Numbered(queue.jobs) && queue.ready == []
      ensures q == queue && tick == 0 && Valid() && book == Book([], multiset{}, multiset{})
    {
      q, tick, book := queue, 0, Book([], multiset{}, multiset{});
    }

    /** One ready_queue_add, seen from a list some call started with. */
    method AddJob(o: Preemption.Order, ghost was: seq<Item>)
      requires Valid() && q.free != [] && Kept(was, q.Items())
      modifies q, q.jobs, `book
      ensures Valid() && Kept(was, q.Items()) && |q.free| == |old(q.free)| - 1
      ensures book == old(book).(came := old(book).came + multiset{(o.prio, o.id)})
      ensures q.Items() == Insert(old(q.Items()), Item(NodesOf(old(q.free))[0], o.prio, o.id))
      ensures NodesOf(q.free) == NodesOf(old(q.free))[1..]
    {
      FairAdd(book, q.Items(), Item(NodesOf(q.free)[0], o.prio, o.id));
      QueueJob(o, was);
      book := book.(came := book.came + multiset{(o.prio, o.id)});
    }

    method QueueJob(o: Preemption.Order, ghost was: seq<Item>)
      requires q.Valid() && Numbered(q.jobs) && q.free != [] && Kept(was, q.Items())
      modifies q, q.jobs
      ensures q.Valid() && Kept(was, q.Items()) && |q.free| == |old(q.free)| - 1
      ensures q.Items() == Insert(old(q.Items()), Item(NodesOf(old(q.free))[0], o.prio, o.id))
      ensures NodesOf(q.free) == NodesOf(old(q.free))[1..]
    {
      ItemsDistinct(q.jobs, q.ready, q.free);
      KeptInsert(was, q.Items(), Item(q.free[0].node, o.prio, o.id));
      q.Add(0, o.prio, o.id);
    }

    method AddNext(orders: seq<Preemption.Order>, ghost was: seq<Item>, ghost goal: Goal)
      requires Valid() && Kept(was, q.Items()) && orders != []
      requires Leads(q.Items(), NodesOf(q.free), book.came, orders, goal)
      modifies q, q.jobs, `book
      ensures Valid() && Kept(was, q.Items()) && book == old(book).(came := book.came)
      ensures Leads(q.Items(), NodesOf(q.free), book.came, orders[1..], goal)
    {
      AddAllLists(q.Items(), NodesOf(q.free), orders);
      AddJob(orders[0], was);
    }

    /** The calls of ready_queue_add in one case of the switch. */
    method AddJobs(orders: seq<Preemption.Order>, ghost was: seq<Item>)
      requires Valid() && |orders| <= |q.free| && Kept(was, q.Items())
      modifies q, q.jobs, `book
      ensures Valid() && Kept(was, q.Items()) && tick == old(tick)
      ensures book == old(book).(came := old(book).came + Ordered(orders))
      ensures var r := Preemption.AddAll(View(old(q.Items()), NodesOf(old(q.free))), orders);
              q.Items() == r.ready && NodesOf(q.free) == r.free
    {
      ghost var goal := Goal(Preemption.AddAll(View(q.Items(), NodesOf(q.free)), orders), book.came + Ordered(orders));
      var i := 0;
      assert orders[0..] == orders;
      while i < |orders|
        invariant 0 <= i <= |orders| && Valid() && Kept(was, q.Items())
        invariant book == old(book).(came := book.came)
        invariant Leads(q.Items(), NodesOf(q.free), book.came, orders[i..], goal)
        modifies q, q.jobs, `book
      {
        AddNext(orders[i..], was, goal);
        assert orders[i..][1..] == orders[i + 1..];
        i := i + 1;
      }
      assert orders[|orders|..] == [];
    }

    /** The case of the switch that the tick selects: three jobs, and two more each fourth time. */
    method Selected(at: nat) returns (orders: seq<Preemption.Order>)
      requires tick < 4
      ensures orders == Schedules.EdfOrders(tick, at) && Ordered(orders) == Schedules.ToCome(tick == 0, at)
    {
      Schedules.EdfComes(tick, at);
      orders := Schedules.EdfOrders(tick, at);
    }

    /** The calls of ready_queue_add in that case, and the tick after it. */
    method AddBatch(orders: seq<Preemption.Order>, ghost was: seq<Item>)
      requires Valid() && |orders| <= |q.free| && Kept(was, q.Items())
      modifies q, q.jobs, `tick, `book
      ensures Valid() && Kept(was, q.Items()) && tick == (old(tick) + 1) % 4
      ensures book == old(book).(came := old(book).came + Ordered(orders))
      ensures var r := Preemption.AddAll(View(old(q.Items()), NodesOf(old(q.free))), orders);
              q.Items() == r.ready && NodesOf(q.free) == r.free
    {
      AddJobs(orders, was);
      NextTick();
    }

    /** The end of the switch and the increment. */
    method NextTick()
      requires Valid()
      modifies `tick
      ensures Valid() && tick == (old(tick) + 1) % 4
    {
      tick := Schedules.NextTick(tick);
    }

    /** A point where exceptions are on: the timer may fire here, and again after each return. Whoever
        is interrupted finds the head it had, its earlier list still kept, and no job half run. */
    method Interrupted(script: seq<Moment>, ghost was: seq<Item>) returns (rest: seq<Moment>)
      requires Valid() && Kept(was, q.Items())
      modifies q, q.jobs, `tick, `book
      ensures Valid() && Kept(was, q.Items()) && q.head == old(q.head)
      ensures book.running == old(book.running) && old(book.came) <= book.came
      ensures |rest| < |script| || (rest == script && q.ready == old(q.ready))
      decreases |script|, 0
    {
      rest := script;
      if script != [] {
        rest := script[1..];
        var room := q.Room();
        if script[0].Fires? && |Schedules.EdfOrders(tick, script[0].at)| <= room {
          ghost var items := q.Items();
          rest := Handler(script[0].at, rest);
          KeptTrans(was, items, q.Items());
          rest := Interrupted(rest, was);
        }
      }
    }

    /** The handler returns with the record at the head that was there when it came, and with every
        job it found still queued in order behind nothing but more urgent ones. Its own batch has been
        queued, and every job that it or a nested handler started has ended. */
    method Handler(at: nat, script: seq<Moment>) returns (rest: seq<Moment>)
      requires Valid() && |Schedules.EdfOrders(tick, at)| <= |q.free|
      modifies q, q.jobs, `tick, `book
      ensures Valid() && q.head == old(q.head) && Kept(old(q.Items()), q.Items())
      ensures book.running == old(book.running)
      ensures old(book.came) + Schedules.ToCome(old(tick) == 0, at) <= book.came
      ensures |rest| <= |script|
      decreases |script|, 5
    {
      ghost var was := q.Items();
      var current := q.Peek();
      KeptSame(was);
      var orders := Selected(at);
      AddBatch(orders, was);
      rest := Serve(current, script, was);
    }

    /** The handler after active_exception: peek, and the loop. */
    method Serve(current: Job?, script: seq<Moment>, ghost was: seq<Item>) returns (rest: seq<Moment>)
      requires Valid() && Kept(was, q.Items()) && Preempted(current, was, book.running)
      modifies q, q.jobs, `tick, `book
      ensures Valid() && Kept(was, q.Items()) && q.head == current
      ensures book.running == old(book.running) && old(book.came) <= book.came
      ensures |rest| <= |script|
      decreases |script|, 4
    {
      rest := Interrupted(script, was);
      var run := q.Peek();
      rest := Interrupted(rest, was);
      rest := RunUrgent(current, run, rest, was);
    }

    /** current is the record at the head of the list that the call found. */
    ghost predicate Preempted(current: Job?, was: seq<Item>, running: seq<Item>) {
      && (current == null <==> was == [])
      && (current != null ==> current in q.jobs && current.node == was[0].node)
      && (running != [] ==> was != [] && was[0].prio <= Last(running).prio)
    }

    /** The handler's loop. */
    method RunUrgent(current: Job?, first: Job?, script: seq<Moment>, ghost was: seq<Item>) returns (rest: seq<Moment>)
      requires Valid() && Kept(was, q.Items()) && Preempted(current, was, book.running) && first == q.head
      modifies q, q.jobs, `tick, `book
      ensures Valid() && Kept(was, q.Items()) && q.head == current
      ensures book.running == old(book.running) && old(book.came) <= book.came
      ensures |rest| <= |script|
      decreases |script|, 3
    {
      rest := script;
      var run := first;
      while run != null && run != current
        invariant Valid() && Kept(was, q.Items()) && run == q.head && |rest| <= |script|
        invariant book.running == old(book.running) && old(book.came) <= book.came
        decreases |rest|, |q.ready|
      {
        rest, run := RunHead(current, rest, was);
      }
      assert was != [] ==> q.Items() != [];
    }

    /** main's loop between two sleeps: it goes to sleep with the queue empty, and then every job that
        ever came has ended. */
    method RunAll(script: seq<Moment>) returns (rest: seq<Moment>)
      requires Valid() && book.running == []
      modifies q, q.jobs, `tick, `book
      ensures Valid() && book.running == [] && q.ready == [] && book.ended == book.came
      ensures old(book.came) <= book.came && |rest| <= |script|
      decreases |script|, 4
    {
      var run := q.Peek();
      rest := Interrupted(script, []);
      rest := RunUrgent(null, run, rest, []);
      assert q.Items() == [];
    }

    /** One turn of the loop: the start message and run->task(), the pop with its end message, the next
        peek, each open to the timer. */
    method RunHead(ghost current: Job?, script: seq<Moment>, ghost was: seq<Item>)
      returns (rest: seq<Moment>, run: Job?)
      requires Valid() && Kept(was, q.Items()) && q.head != null && q.head != current
      requires Preempted(current, was, book.running)
      modifies q, q.jobs, `tick, `book
      ensures Valid() && Kept(was, q.Items()) && run == q.head
      ensures book.running == old(book.running) && old(book.came) <= book.came
      ensures |rest| < |script| || (|rest| == |script| && |q.ready| < |old(q.ready)|)
      decreases |script|, 2
    {
      rest := RunJob(current, script, was);
      rest := Interrupted(rest, was);
      run := q.Peek();
      rest := Interrupted(rest, was);
    }

    /** The start message and run->task(), then the pop. */
    method RunJob(ghost current: Job?, script: seq<Moment>, ghost was: seq<Item>) returns (rest: seq<Moment>)
      requires Valid() && Kept(was, q.Items()) && q.head != null && q.head != current
      requires Preempted(current, was, book.running)
      modifies q, q.jobs, `tick, `book
      ensures Valid() && Kept(was, q.Items())
      ensures book.running == old(book.running) && old(book.came) <= book.came
      ensures |rest| < |script| || (|rest| == |script| && |q.ready| < |old(q.ready)|)
      decreases |script|, 1
    {
      StartHead(current, was);
      rest := Interrupted(script, was);
      PopOwn(current, was);
    }

    /** The start message: the head is strictly more urgent than every job started and not ended. */
    ghost method StartHead(current: Job?, was: seq<Item>)
      requires Valid() && Kept(was, q.Items()) && q.head != null && q.head != current
      requires Preempted(current, was, book.running)
      modifies `book
      ensures Valid() && book == old(book).(running := old(book).running + [q.Items()[0]])
    {
      FairStart(book, was, q.Items());
      book := book.(running := book.running + [q.Items()[0]]);
    }

    /** ready_queue_pop by a call that preempted current and has just run the head. */
    method PopOwn(ghost current: Job?, ghost was: seq<Item>)
      requires Valid() && Kept(was, q.Items()) && q.head != null && q.head != current
      requires (current == null <==> was == [])
      requires (current != null ==> current in q.jobs && current.node == was[0].node)
      requires book.running != []
      requires (|book.running| > 1 ==> was != [] && was[0].prio <= book.running[|book.running| - 2].prio)
      modifies q, q.jobs, `book
      ensures Valid() && Kept(was, q.Items()) && q.ready == old(q.ready)[1..]
      ensures book.running == old(book.running)[..|old(book.running)| - 1] && book.came == old(book.came)
    {
      ItemsDistinct(q.jobs, q.ready, q.free);
      Preemption.PopKeeps(was, q.Items());
      FairEnd(book, was, q.Items());
      book := book.(running := book.running[..|book.running| - 1],
                    ended := book.ended + multiset{(q.Items()[0].prio, q.Items()[0].id)});
      q.Pop();
    }
  }

  /** The lists after a batch do not depend on the rest of the state. */
  lemma AddAllLists(items: seq<Item>, nodes: seq<nat>, orders: seq<Preemption.Order>)
    requires 0 < |orders| <= |nodes|
    ensures var r := Preemption.AddAll(View(items, nodes), orders);
            var x := Item(nodes[0], orders[0].prio, orders[0].id);
            var t := Preemption.AddAll(View(Insert(items, x), nodes[1..]), orders[1..]);
            r.ready == t.ready && r.free == t.free
  {
    SameLists(Preemption.AddOne(View(items, nodes), orders[0]),
              View(Insert(items, Item(nodes[0], orders[0].prio, orders[0].id)), nodes[1..]), orders[1..]);
  }

  lemma {:induction false} SameLists(a: Preemption.State, b: Preemption.State, orders: seq<Preemption.Order>)
    requires a.ready == b.ready && a.free == b.free && |orders| <= |a.free|
    ensures var r, t := Preemption.AddAll(a, orders), Preemption.AddAll(b, orders);
            r.ready == t.ready && r.free == t.free
    decreases |orders|
  {
    if orders != [] { SameLists(Preemption.AddOne(a, orders[0]), Preemption.AddOne(b, orders[0]), orders[1..]); }
  }
}
