/** No starvation over every interleaving: the run theorem of KernelRuns for the machine of SlotLocking,
    where threads are created, end, change priority and are terminated all at once. */
module SlotRuns {
  import opened Registers
  import opened SlotTable
  import opened KernelSpec
  import KernelRuns
  import opened SlotLocking
  import opened SlotRaces

  /** The machine with the threads' lives; init is the table it began with. */
  datatype Sys = Sys(w: World, life: seq<Life>, init: Table)

  /** What slots and soft bits were when the lock was last free. */
  ghost function Base(x: Sys): (t: Table)
    requires |x.init.soft| == HW_THREADS && GoodLog(x.w.log)
    ensures |t.soft| == HW_THREADS
  {
    Replay(x.init, x.w.log)
  }

  /** The index of the func entry that the call reads next, 8 when it has read them all. */
  function NextRead(todo: seq<Act>): (n: nat)
    ensures n <= HW_THREADS
  {
    if todo == [] then HW_THREADS
    else if todo[0].GetFunc? then (if todo[0].i < HW_THREADS then todo[0].i else HW_THREADS)
    else NextRead(todo[1..])
  }

  function FinishedCall(q: Proc): Done
    requires q.Inside?
  {
    Done(q.call, q.local.seen, q.local.prio)
  }

  function LifeAfter(life: seq<Life>, w: World, e: Event): (r: seq<Life>)
    requires |life| == HW_THREADS && WorldShape(w)
    ensures |r| == HW_THREADS
  {
    match e
    case FuncWrite(tid, alive) => if tid < HW_THREADS then life[tid := if alive then Half else Dead] else life
    case FreeLock(p) =>
      if p < |w.procs| && w.procs[p].Inside? && w.procs[p].todo == [] then Committed(life, w.procs[p].call) else life
    case _ => life
  }

  function Next(x: Sys, e: Event): Sys
    requires |x.life| == HW_THREADS && WorldShape(x.w)
  {
    Sys(Fire(x.w, e), LifeAfter(x.life, x.w, e), x.init)
  }

  predicate Supported(prio: int) { prio == REALTIME || prio == NORMAL }

  /** Whom a call may name: osSchedulerSetSlotNum is asked for a terminated thread's last slots, and a
      terminate names a thread whose func it has cleared. */
  predicate MayAsk(life: seq<Life>, c: SlotCall)
    requires |life| == HW_THREADS && c.Valid()
  {
    match c
    case SetNum(id, n) => id < HW_THREADS && n == 0 && life[id] == Dead
    case EndSoft(tid) => life[tid] == Dead
    case Create(tid) => life[tid] == Half
    case ToHard(_) => true
    case ToSoft(_) => true
  }

  /** A demotion is about to count a soft thread whose creation is not over, and there is no SOFT slot. */
  predicate Misled(x: Sys, p: nat)
    requires |x.life| == HW_THREADS && WorldShape(x.w) && p < |x.w.procs| && x.w.procs[p].Inside?
  {
    var q := x.w.procs[p];
    && q.call.ToSoft? && q.todo != [] && q.todo[0].GetFunc? && q.todo[0].i < HW_THREADS && q.todo[0].i != q.call.tid
    && x.life[q.todo[0].i] == Half && Soft(x.w.modes[q.todo[0].i]) && Count(x.w.slots, SLOT_S) == 0
  }

  /** What the run theorem asks of its events: a thread lives once, with a supported priority; calls name
      whom they may; no demotion is misled; and a finished call that had to take a slot for a live thread found two. */
  ghost predicate Allowed(x: Sys, e: Event)
    requires |x.life| == HW_THREADS && Linear(x.w, x.init) && |x.w.priority| == HW_THREADS
  {
    match e
    case FuncWrite(tid, alive) =>
      tid < HW_THREADS ==>
        if alive then x.life[tid] == Unborn && Supported(x.w.priority[tid]) else x.life[tid] != Unborn
    case PriorityWrite(tid, prio) => Supported(prio)
    case Ask(p, c) => c.Valid() ==> MayAsk(x.life, c)
    case Access(p) => p < |x.w.procs| && x.w.procs[p].Inside? ==> !Misled(x, p)
    case FreeLock(p) =>
      p < |x.w.procs| && x.w.procs[p].Inside? && x.w.procs[p].todo == [] ==>
        (Needs(Base(x), FinishedCall(x.w.procs[p]), x.life) ==> Count(Base(x).slots, SLOT_D) >= 2)
    case TakeLock(_) => true
    case ZombieBit(_, _) => true
  }

  // ------------------------------------------------------------------------- the invariant

  predicate Named(life: seq<Life>, c: SlotCall)
    requires |life| == HW_THREADS && c.Valid()
  {
    (c.SetNum? ==> c.id < HW_THREADS && c.n == 0 && life[c.id] == Dead)
    && (c.EndSoft? ==> life[c.tid] == Dead) && (c.Create? ==> life[c.tid] != Unborn)
  }

  predicate NoReads(todo: seq<Act>) {
    forall i :: 0 <= i < |todo| ==> !todo[i].GetSlots? && !todo[i].GetModes? && !todo[i].GetFunc?
  }

  /** The reading part of a survey, at some point of it. */
  predicate Unread(todo: seq<Act>) {
    && |todo| >= 2 && todo[|todo| - 2].GetFunc? && todo[|todo| - 2].i < HW_THREADS && todo[|todo| - 1] == Decide
    && (var before := todo[..|todo| - 2]; before == [] || before == [GetModes] || before == [GetSlots, GetModes])
    && (|todo| > 2 ==> todo[|todo| - 2].i == 0)
  }

  /** What the call inside has read so far; a survey writes only after it has read everything. */
  ghost predicate Reading(q: Proc, life: seq<Life>, base: Table, now: Table)
    requires q.Inside? && q.call.Valid() && Sane(q.local) && |life| == |base.soft| == HW_THREADS
  {
    && (Surveys(q.call) ==>
          && (Unread(q.todo) || NoReads(q.todo)) && (Unread(q.todo) ==> now == base)
          && forall k :: 0 <= k < NextRead(q.todo) && life[k] == Alive ==> q.local.seen[k])
    && (q.call.ToSoft? && OtherSeen(base, q.local.seen, q.call.tid) ==> Count(base.slots, SLOT_S) > 0)
    && (q.call.Create? ==> (q.todo != [] && q.todo[0].GetPriority?) || Supported(q.local.prio))
  }

  function Now(w: World): Table { Table(w.slots, SoftBits(w.modes)) }

  ghost predicate Good(x: Sys) {
    && Linear(x.w, x.init) && |x.life| == |x.w.func| == |x.w.priority| == HW_THREADS
    && (forall k :: 0 <= k < HW_THREADS ==> (x.w.func[k] <==> x.life[k] == Half || x.life[k] == Alive))
    && (forall k :: 0 <= k < HW_THREADS && x.life[k] != Unborn ==> Supported(x.w.priority[k]))
    && (forall p :: 0 <= p < |x.w.procs| ==>
          && (x.w.procs[p].Wanting? ==> Named(x.life, x.w.procs[p].call))
          && (x.w.procs[p].Inside? ==>
                Named(x.life, x.w.procs[p].call) && Reading(x.w.procs[p], x.life, Base(x), Now(x.w))))
    && Fed(Base(x), x.life)
  }

  // --------------------------------------------------------------------------- reading on

  lemma {:induction false} NoReadsNext(todo: seq<Act>)
    requires NoReads(todo)
    ensures NextRead(todo) == HW_THREADS
  {
    if todo != [] { NoReadsNext(todo[1..]); }
  }

  lemma UnreadNext(todo: seq<Act>)
    requires Unread(todo)
    ensures NextRead(todo) == todo[|todo| - 2].i
  {
    if |todo| > 2 {
      assert todo[0] == todo[..|todo| - 2][0];
      assert todo[1..][|todo| - 3] == todo[|todo| - 2];
      if |todo| > 3 { assert todo[1..][0] == todo[..|todo| - 2][1] && todo[1..][1..][0] == todo[2]; }
    }
  }

  lemma PlanWrites(c: SlotCall, l: Local)
    requires c.Valid() && Sane(l) && Surveys(c)
    ensures NoReads(Plan(c, l))
  {
  }

  lemma UnreadRest(todo: seq<Act>)
    requires Unread(todo) && !todo[0].GetFunc?
    ensures Unread(todo[1..]) && (todo[0].GetSlots? || todo[0].GetModes?) && NextRead(todo[1..]) == NextRead(todo)
  {
    assert todo[0] == todo[..|todo| - 2][0];
    assert todo[1..][..|todo| - 3] == todo[..|todo| - 2][1..];
    UnreadNext(todo);
    UnreadNext(todo[1..]);
  }

  /** One access of a survey keeps what it knows. */
  lemma SurveyAccess(q: Proc, life: seq<Life>, base: Table, func: seq<bool>, prio: int)
    requires q.Inside? && q.call.Valid() && Sane(q.local) && |life| == |base.soft| == |func| == HW_THREADS
    requires Surveys(q.call) && q.todo != [] && Reading(q, life, base, base)
    requires forall k :: 0 <= k < HW_THREADS && life[k] == Alive ==> func[k]
    requires q.call.ToSoft? && q.todo[0].GetFunc? && q.todo[0].i != q.call.tid ==>
               base.soft[q.todo[0].i] && func[q.todo[0].i] ==> Count(base.slots, SLOT_S) > 0
    requires Unread(q.todo)
    ensures var d := Do(q.call, q.todo, q.local, base.slots, base.soft, func, prio);
            && d.slots == base.slots && d.soft == base.soft
            && Reading(Inside(q.call, d.todo, d.local), life, base, base)
  {
    var d := Do(q.call, q.todo, q.local, base.slots, base.soft, func, prio);
    UnreadNext(q.todo);
    if q.todo[0].GetFunc? {
      var i := q.todo[0].i;
      assert |q.todo| == 2 && q.todo[1..] == [Decide];
      if i + 1 < HW_THREADS {
        assert d.todo == [GetFunc(i + 1), Decide];
      } else {
        NoReadsNext(d.todo);
      }
      if q.call.ToSoft? && OtherSeen(base, d.local.seen, q.call.tid) {
        var k :| 0 <= k < HW_THREADS && k != q.call.tid && base.soft[k] && d.local.seen[k];
        if k != i { assert OtherSeen(base, q.local.seen, q.call.tid); }
      }
    } else {
      UnreadRest(q.todo);
    }
  }

  /** After the reading no access changes what was seen. */
  lemma WriteAccess(q: Proc, life: seq<Life>, base: Table, now: Table, func: seq<bool>, prio: int, later: Table)
    requires q.Inside? && q.call.Valid() && Sane(q.local)
    requires |life| == |base.soft| == |now.soft| == |func| == HW_THREADS
    requires Surveys(q.call) && q.todo != [] && Reading(q, life, base, now) && !Unread(q.todo)
    ensures var d := Do(q.call, q.todo, q.local, now.slots, now.soft, func, prio);
            Reading(Inside(q.call, d.todo, d.local), life, base, later)
  {
    var d := Do(q.call, q.todo, q.local, now.slots, now.soft, func, prio);
    assert NoReads(q.todo[1..]);
    if q.todo[0] == Decide && q.local.stage > 0 { PlanWrites(q.call, q.local.(stage := q.local.stage - 1)); }
    assert NoReads(d.todo) && d.local.seen == q.local.seen;
    NoReadsNext(q.todo);
    NoReadsNext(d.todo);
    NotBoth(d.todo);
  }

  lemma NotBoth(todo: seq<Act>)
    requires NoReads(todo)
    ensures !Unread(todo)
  {
  }

  lemma CreateAccess(q: Proc, life: seq<Life>, base: Table, now: Table, func: seq<bool>, prio: int, later: Table)
    requires q.Inside? && q.call.Valid() && Sane(q.local)
    requires |life| == |base.soft| == |now.soft| == |func| == HW_THREADS
    requires q.call.Create? && q.todo != [] && Reading(q, life, base, now) && Supported(prio)
    ensures var d := Do(q.call, q.todo, q.local, now.slots, now.soft, func, prio);
            Reading(Inside(q.call, d.todo, d.local), life, base, later)
  {
  }

  lemma AccessReading(x: Sys, p: nat)
    requires Good(x) && p < |x.w.procs| && x.w.procs[p].Inside? && x.w.procs[p].todo != [] && !Misled(x, p)
    ensures var d := AccessEffect(x.w, p);
            Reading(Inside(x.w.procs[p].call, d.todo, d.local), x.life, Base(x), Table(d.slots, d.soft))
  {
    var q, base, now := x.w.procs[p], Base(x), Now(x.w);
    var d := AccessEffect(x.w, p);
    var prio := PriorityRead(x.w, q.call);
    if Surveys(q.call) {
      if Unread(q.todo) {
        SurveyAccess(q, x.life, base, x.w.func, prio);
      } else {
        WriteAccess(q, x.life, base, now, x.w.func, prio, Table(d.slots, d.soft));
      }
    } else if q.call.Create? {
      CreateAccess(q, x.life, base, now, x.w.func, prio, Table(d.slots, d.soft));
    }
  }

  /** The holder's access keeps the invariant, unless it misleads a demotion. */
  lemma AccessGood(x: Sys, p: nat)
    requires Good(x) && p < |x.w.procs| && x.w.procs[p].Inside? && x.w.procs[p].todo != [] && !Misled(x, p)
    ensures Good(Next(x, Access(p)))
  {
    var d := AccessEffect(x.w, p);
    var r := Next(x, Access(p));
    AccessLinear(x.w, x.init, p);
    AccessReading(x, p);
    assert r.w == Stored(x.w, p, d);
    assert Now(r.w) == Table(d.slots, d.soft);
    assert Base(r) == Base(x);
  }

  // ------------------------------------------------------------------------- the other events

  lemma TakeLockGood(x: Sys, p: nat)
    requires Good(x) && p < |x.w.procs| && x.w.procs[p].Wanting? && x.w.lock == -1
    ensures Good(Next(x, TakeLock(p)))
  {
    var c, r := x.w.procs[p].call, Next(x, TakeLock(p));
    TakeLockLinear(x.w, x.init, p);
    var todo := Program(c);
    if Surveys(c) {
      assert Unread(todo) && todo[|todo| - 2] == GetFunc(0);
      UnreadNext(todo);
    }
    assert Base(r) == Base(x) == Now(x.w);
    assert Reading(r.w.procs[p], x.life, Base(x), Now(r.w));
  }

  lemma SoundAtEnd(x: Sys, p: nat)
    requires Good(x) && p < |x.w.procs| && x.w.procs[p].Inside? && x.w.procs[p].todo == []
    ensures Sound(Base(x), FinishedCall(x.w.procs[p]), x.life)
    ensures !Miscounts(Base(x), FinishedCall(x.w.procs[p]), x.life)
  {
    assert Reading(x.w.procs[p], x.life, Base(x), Now(x.w));
    assert NextRead([]) == HW_THREADS;
  }

  lemma FreeLockGood(x: Sys, p: nat)
    requires Good(x) && p < |x.w.procs| && x.w.procs[p].Inside? && x.w.procs[p].todo == []
    requires Needs(Base(x), FinishedCall(x.w.procs[p]), x.life) ==> Count(Base(x).slots, SLOT_D) >= 2
    ensures Good(Next(x, FreeLock(p)))
  {
    var d, r := FinishedCall(x.w.procs[p]), Next(x, FreeLock(p));
    FreeLockLinear(x.w, x.init, p);
    SoundAtEnd(x, p);
    CallFeedsExactly(Base(x), d, x.life);
    assert r.w.log == x.w.log + [d] && r.w.log[..|x.w.log|] == x.w.log;
    assert Base(r) == Atomic(Base(x), d);
    assert Named(x.life, d.call);
    forall k | 0 <= k < |r.w.procs| && r.w.procs[k].Wanting? ensures Named(r.life, r.w.procs[k].call) {
      assert r.w.procs[k] == x.w.procs[k];
    }
  }

  /** Lives only move on, and only a finished creation makes anybody alive. */
  predicate MovesOn(life: seq<Life>, r: seq<Life>)
    requires |life| == |r| == HW_THREADS
  {
    forall k :: 0 <= k < HW_THREADS ==>
      && (life[k] == Dead ==> r[k] == Dead) && (life[k] != Unborn ==> r[k] != Unborn)
      && (r[k] == Alive ==> life[k] == Alive)
  }

  lemma LifeGood(x: Sys, tid: nat, alive: bool)
    requires Good(x) && tid < HW_THREADS
    requires if alive then x.life[tid] == Unborn && Supported(x.w.priority[tid]) else x.life[tid] != Unborn
    ensures Good(Next(x, FuncWrite(tid, alive)))
  {
    var r := Next(x, FuncWrite(tid, alive));
    FireLinear(x.w, x.init, FuncWrite(tid, alive));
    assert MovesOn(x.life, r.life) && Base(r) == Base(x) && Now(r.w) == Now(x.w);
    forall p | 0 <= p < |r.w.procs| && r.w.procs[p].Inside? ensures Reading(r.w.procs[p], r.life, Base(x), Now(x.w)) {
      assert Reading(x.w.procs[p], x.life, Base(x), Now(x.w));
    }
  }

  lemma QuietGood(x: Sys, e: Event)
    requires Good(x) && Allowed(x, e) && (e.Ask? || e.ZombieBit? || e.PriorityWrite?)
    ensures Good(Next(x, e))
  {
    var r := Next(x, e);
    FireLinear(x.w, x.init, e);
    if e.ZombieBit? && e.tid < HW_THREADS { ZombieKeepsSoftBits(x.w.modes, e.tid, e.on); }
    assert Base(r) == Base(x) && Now(r.w) == Now(x.w);
    forall p | 0 <= p < |r.w.procs| && r.w.procs[p].Inside? ensures Reading(r.w.procs[p], r.life, Base(x), Now(x.w)) {
      assert r.w.procs[p] == x.w.procs[p];
    }
  }

  lemma NextGood(x: Sys, e: Event)
    requires Good(x) && Allowed(x, e)
    ensures Good(Next(x, e))
  {
    match e
    case TakeLock(p) =>
      if p < |x.w.procs| && x.w.procs[p].Wanting? && x.w.lock == -1 {
        TakeLockGood(x, p);
      } else {
        assert Next(x, e) == x;
      }
    case Access(p) =>
      if p < |x.w.procs| && x.w.procs[p].Inside? && x.w.procs[p].todo != [] {
        AccessGood(x, p);
      } else {
        assert Next(x, e) == x;
      }
    case FreeLock(p) =>
      if p < |x.w.procs| && x.w.procs[p].Inside? && x.w.procs[p].todo == [] {
        FreeLockGood(x, p);
      } else {
        assert Next(x, e) == x;
      }
    case FuncWrite(tid, alive) => if tid < HW_THREADS { LifeGood(x, tid, alive); } else { assert Next(x, e) == x; }
    case Ask(_, _) => QuietGood(x, e);
    case ZombieBit(_, _) => QuietGood(x, e);
    case PriorityWrite(_, _) => QuietGood(x, e);
  }

  // ------------------------------------------------------------------------------------ runs

  function After(x: Sys, es: seq<Event>): (r: Sys)
    requires |x.life| == HW_THREADS && WorldShape(x.w)
    ensures |r.life| == HW_THREADS && WorldShape(r.w) && r.init == x.init
    decreases |es|
  {
    if es == [] then x else After(Next(x, es[0]), es[1..])
  }

  ghost predicate AllAllowed(x: Sys, es: seq<Event>)
    requires Good(x)
    decreases |es|
  {
    es == [] || (Allowed(x, es[0]) && (NextGood(x, es[0]); AllAllowed(Next(x, es[0]), es[1..])))
  }

  lemma {:induction false} RunGood(x: Sys, es: seq<Event>)
    requires Good(x) && AllAllowed(x, es)
    ensures Good(After(x, es))
    decreases |es|
  {
    if es != [] {
      NextGood(x, es[0]);
      RunGood(Next(x, es[0]), es[1..]);
    }
  }

  /** The machine over what osKernelStart left: the created threads live, n of them or fewer ask. */
  function Started(os: Os, n: nat): Sys
    requires os.Shape()
  {
    Sys(Quiet(n, os.slots, os.modes, os.func, os.priority),
        seq(HW_THREADS, k requires 0 <= k < 8 => if os.func[k] then Alive else if k < os.num then Dead else Unborn),
        Table(os.slots, SoftBits(os.modes)))
  }

  lemma StartedGood(r: KernelRuns.Run, n: nat)
    requires KernelRuns.Conserved(r) && KernelRuns.NoStarvation(r.os)
    ensures Good(Started(r.os, n))
  {
    var x := Started(r.os, n);
    forall k | 0 <= k < HW_THREADS && x.life[k] == Alive
      ensures Count(Base(x).slots, if Base(x).soft[k] then SLOT_S else k) > 0
    {
      assert r.os.LiveSoft(k) || r.os.LiveHard(k);
    }
    forall k | 0 <= k < HW_THREADS && x.life[k] != Unborn ensures Supported(x.w.priority[k]) {
      assert KernelRuns.Agrees(r, k);
    }
  }

  /** From osKernelStart with no soft thread remembered, over every interleaving of allowed events: whenever
      slot_mutex is free, each created live thread has a slot of its own or, if soft, a SOFT slot. */
  lemma NobodyStarvesInterleaved(os: Os, n: nat, es: seq<Event>)
    requires KernelRuns.BeforeStart(os) && os.softId == -1
    requires Good(Started(OsKernelStart(os), n)) ==> AllAllowed(Started(OsKernelStart(os), n), es)
    ensures var x := After(Started(OsKernelStart(os), n), es);
            x.w.lock == -1 ==> forall k :: 0 <= k < HW_THREADS && x.life[k] == Alive ==>
              Count(x.w.slots, if Soft(x.w.modes[k]) then SLOT_S else k) > 0
  {
    KernelRuns.StartConserves(os);
    KernelRuns.StartFeedsExactly(os);
    StartedGood(KernelRuns.Started(os), n);
    RunGood(Started(OsKernelStart(os), n), es);
    var x := After(Started(OsKernelStart(os), n), es);
    assert Good(x);
  }
}
