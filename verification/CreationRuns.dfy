/** Four runs from osKernelStart in which two calls meet. Three have a thread's creation between its func
    write and its critical section: a termination and a promotion leak the SOFT slot there, a demotion
    starves a thread. In the fourth a demotion comes between a terminate's two steps. */
module CreationRuns {
  import opened Registers
  import opened SlotTable
  import opened KernelSpec
  import KernelRuns
  import KernelLeaks
  import opened SlotLocking
  import opened SlotRaces
  import opened SlotRuns

  // ------------------------------------------------------------- a call with nothing else happening

  /** p holds the lock, and what it has read of func and priority is what stands there now. */
  ghost predicate Solo(w: World, init: Table, p: nat) {
    && Linear(w, init) && w.lock == p && p < |w.procs| && w.procs[p].Inside?
    && |w.func| == |w.priority| == HW_THREADS
    && var q := w.procs[p];
       && (Surveys(q.call) ==>
             && (Unread(q.todo) || NoReads(q.todo))
             && forall k :: 0 <= k < NextRead(q.todo) ==> q.local.seen[k] == w.func[k])
       && (q.call.Create? ==>
             (q.todo != [] && q.todo[0].GetPriority?) || q.local.prio == w.priority[q.call.tid])
  }

  /** Between two states of a run only p's call and the tables it writes have changed. */
  predicate OnlyCall(w: World, w': World, p: nat) {
    && w'.func == w.func && w'.priority == w.priority && w'.log == w.log && w'.lock == w.lock
    && |w'.procs| == |w.procs| && p < |w.procs| && w'.procs == w.procs[p := w'.procs[p]]
  }

  lemma SoloAccess(w: World, init: Table, p: nat)
    requires Solo(w, init, p) && w.procs[p].todo != []
    ensures var w' := Fire(w, Access(p));
            && Solo(w', init, p) && OnlyCall(w, w', p) && w'.procs[p].call == w.procs[p].call
            && w'.procs[p] == Inside(w.procs[p].call, AccessEffect(w, p).todo, AccessEffect(w, p).local)
  {
    var q, d := w.procs[p], AccessEffect(w, p);
    AccessLinear(w, init, p);
    if Surveys(q.call) {
      SoloSurvey(q, w.slots, SoftBits(w.modes), w.func, PriorityRead(w, q.call));
    }
  }

  lemma SoloSurvey(q: Proc, slots: Slots, soft: seq<bool>, func: seq<bool>, prio: int)
    requires q.Inside? && q.call.Valid() && Sane(q.local) && Surveys(q.call) && q.todo != []
    requires |soft| == |func| == HW_THREADS && (Unread(q.todo) || NoReads(q.todo))
    requires forall k :: 0 <= k < NextRead(q.todo) ==> q.local.seen[k] == func[k]
    ensures var d := Do(q.call, q.todo, q.local, slots, soft, func, prio);
            && (Unread(d.todo) || NoReads(d.todo))
            && forall k :: 0 <= k < NextRead(d.todo) ==> d.local.seen[k] == func[k]
  {
    var d := Do(q.call, q.todo, q.local, slots, soft, func, prio);
    if Unread(q.todo) {
      UnreadNext(q.todo);
      if q.todo[0].GetFunc? {
        assert |q.todo| == 2 && q.todo[1..] == [Decide];
        if q.todo[0].i + 1 < HW_THREADS {
          assert d.todo == [GetFunc(q.todo[0].i + 1), Decide];
        } else {
          NoReadsNext(d.todo);
        }
      } else {
        UnreadRest(q.todo);
      }
    } else {
      assert NoReads(q.todo[1..]);
      if q.todo[0] == Decide && q.local.stage > 0 { PlanWrites(q.call, q.local.(stage := q.local.stage - 1)); }
      NoReadsNext(q.todo);
      NoReadsNext(d.todo);
    }
  }

  lemma {:induction false} FireAppend(w: World, es: seq<Event>, e: Event)
    requires WorldShape(w)
    ensures WorldShape(FireAll(w, es)) && FireAll(w, es + [e]) == Fire(FireAll(w, es), e)
    decreases |es|
  {
    if es == [] {
      assert es + [e] == [e] && [e][1..] == [];
    } else {
      assert (es + [e])[0] == es[0] && (es + [e])[1..] == es[1..] + [e];
      FireAppend(Fire(w, es[0]), es[1..], e);
    }
  }

  /** The call comes to its end. */
  lemma {:induction false} SoloRun(w0: World, es: seq<Event>, w: World, init: Table, p: nat)
    returns (r: seq<Event>, w': World)
    requires WorldShape(w0) && FireAll(w0, es) == w && Solo(w, init, p)
    ensures FireAll(w0, r) == w' && Solo(w', init, p) && OnlyCall(w, w', p)
    ensures w'.procs[p].todo == [] && w'.procs[p].call == w.procs[p].call
    decreases w.procs[p].local.stage, |w.procs[p].todo|,
              if w.procs[p].todo != [] && w.procs[p].todo[0].GetFunc? && w.procs[p].todo[0].i < 8
              then 8 - w.procs[p].todo[0].i else 0
  {
    if w.procs[p].todo == [] {
      r, w' := es, w;
    } else {
      var next := Fire(w, Access(p));
      SoloAccess(w, init, p);
      FireAppend(w0, es, Access(p));
      r, w' := SoloRun(w0, es + [Access(p)], next, init, p);
    }
  }

  /** A whole call by p while nobody else moves: it is logged with what stood in the tables. */
  lemma CallAlone(w0: World, es: seq<Event>, w: World, init: Table, p: nat, c: SlotCall)
    returns (r: seq<Event>, w': World, d: Done)
    requires WorldShape(w0) && FireAll(w0, es) == w && Linear(w, init) && w.lock == -1
    requires |w.func| == |w.priority| == HW_THREADS && p < |w.procs| && w.procs[p] == Idle && c.Valid()
    ensures FireAll(w0, r) == w' && Linear(w', init) && w'.lock == -1 && w'.log == w.log + [d]
    ensures w'.func == w.func && w'.priority == w.priority && w'.procs == w.procs
    ensures d.call == c && (Surveys(c) ==> d.seen == w.func) && (c.Create? ==> d.prio == w.priority[c.tid])
  {
    var w2, w3;
    r, w2 := Asks(w0, es, w, init, p, c);
    r, w3 := SoloRun(w0, r, w2, init, p);
    FreeLockLinear(w3, init, p);
    FireAppend(w0, r, FreeLock(p));
    r := r + [FreeLock(p)];
    w' := Fire(w3, FreeLock(p));
    d := FinishedCall(w3.procs[p]);
    NoReadsNext([]);
    assert w'.procs == w.procs;
    if Surveys(c) { assert d.seen == w.func; }
  }

  lemma Asks(w0: World, es: seq<Event>, w: World, init: Table, p: nat, c: SlotCall)
    returns (r: seq<Event>, w': World)
    requires WorldShape(w0) && FireAll(w0, es) == w && Linear(w, init) && w.lock == -1
    requires |w.func| == |w.priority| == HW_THREADS && p < |w.procs| && w.procs[p] == Idle && c.Valid()
    ensures FireAll(w0, r) == w' && Solo(w', init, p) && w'.procs[p].call == c
    ensures w'.func == w.func && w'.priority == w.priority && w'.log == w.log
    ensures |w'.procs| == |w.procs| && w'.procs == w.procs[p := w'.procs[p]]
  {
    var w1 := Fire(w, Ask(p, c));
    FireLinear(w, init, Ask(p, c));
    FireAppend(w0, es, Ask(p, c));
    r := es + [Ask(p, c)];
    w' := Fire(w1, TakeLock(p));
    FireAppend(w0, r, TakeLock(p));
    r := r + [TakeLock(p)];
    BeginsSolo(w1, init, p);
  }

  lemma BeginsSolo(w: World, init: Table, p: nat)
    requires Linear(w, init) && w.lock == -1 && p < |w.procs| && w.procs[p].Wanting?
    requires |w.func| == |w.priority| == HW_THREADS
    ensures Solo(Fire(w, TakeLock(p)), init, p)
  {
    var todo := Program(w.procs[p].call);
    TakeLockLinear(w, init, p);
    if Surveys(w.procs[p].call) {
      assert Unread(todo) && todo[|todo| - 2] == GetFunc(0);
      UnreadNext(todo);
    }
  }

  // ----------------------------------------------------------------------------- thread 3 is created

  /** osKernelStart with threads 1 and 2 created before it. */
  function Begun(os: Os): World
    requires os.Shape()
  {
    var s := OsKernelStart(os);
    Quiet(3, s.slots, s.modes, s.func, s.priority)
  }

  function BegunTable(os: Os): Table
    requires os.Shape()
  {
    Table(OsKernelStart(os).slots, SoftBits(OsKernelStart(os).modes))
  }

  ghost predicate TwoThreads(os: Os, prio: int) {
    && KernelRuns.BeforeStart(os) && os.softId == -1 && os.num == 3 && os.func[1] && os.func[2]
    && os.priority[1] == prio && os.priority[2] == REALTIME
  }

  /** osThreadNew for a hard thread 3, as far as its func write. */
  lemma HalfCreated(os: Os) returns (es: seq<Event>, w: World)
    requires os.Shape() && os.num == 3
    ensures FireAll(Begun(os), es) == w && Linear(w, BegunTable(os)) && w.lock == -1 && w.log == []
    ensures w.func == os.func[3 := true] && w.priority == os.priority[3 := REALTIME] && w.procs == [Idle, Idle, Idle]
    ensures w.slots == BegunTable(os).slots && SoftBits(w.modes) == BegunTable(os).soft
  {
    var w0 := Begun(os);
    var w1 := Fire(w0, PriorityWrite(3, REALTIME));
    FireAppend(w0, [], PriorityWrite(3, REALTIME));
    FireAppend(w0, [PriorityWrite(3, REALTIME)], FuncWrite(3, true));
    es := [PriorityWrite(3, REALTIME)] + [FuncWrite(3, true)];
    assert [] + [PriorityWrite(3, REALTIME)] == [PriorityWrite(3, REALTIME)];
    w := Fire(w1, FuncWrite(3, true));
    assert w.procs == [Idle, Idle, Idle];
  }

  /** And then thread 1 ends. */
  lemma HalfCreatedAndGone(os: Os) returns (es: seq<Event>, w: World)
    requires os.Shape() && os.num == 3
    ensures FireAll(Begun(os), es) == w && Linear(w, BegunTable(os)) && w.lock == -1 && w.log == []
    ensures w.func == os.func[3 := true][1 := false] && w.priority == os.priority[3 := REALTIME]
    ensures w.procs == [Idle, Idle, Idle]
  {
    var before;
    es, before := HalfCreated(os);
    FireLinear(before, BegunTable(os), FuncWrite(1, false));
    FireAppend(Begun(os), es, FuncWrite(1, false));
    es := es + [FuncWrite(1, false)];
    w := Fire(before, FuncWrite(1, false));
  }

  lemma StartedSoftBits(os: Os, prio: int)
    requires TwoThreads(os, prio)
    ensures var t := BegunTable(os);
            !t.soft[0] && (t.soft[1] <==> prio == NORMAL) && !t.soft[2] && t.soft[3]
  {
  }

  lemma TwoCalls(init: Table, log: seq<Done>, a: Done, b: Done)
    requires |init.soft| == |a.seen| == |b.seen| == HW_THREADS && a.call.Valid() && b.call.Valid() && log == [a, b]
    ensures Replay(init, log) == Atomic(Atomic(init, a), b)
  {
    assert log[..1] == [a] && [a][..0] == [];
    assert Replay(init, [a]) == Atomic(Replay(init, []), a);
  }

  /** Thread 1, soft, ends and is terminated by thread 2 while thread 0 creates thread 3: at the end the
      lock is free, a SOFT slot is there, and no live thread is soft. */
  lemma SoftSlotLeaks(os: Os) returns (es: seq<Event>)
    requires TwoThreads(os, NORMAL)
    ensures var w := FireAll(Begun(os), es);
            && w.lock == -1 && Count(w.slots, SLOT_S) > 0 && |w.func| == HW_THREADS
            && forall k :: 0 <= k < HW_THREADS ==> !(Soft(w.modes[k]) && w.func[k])
  {
    var w0, t, w, a, b := Begun(os), BegunTable(os), Begun(os), Done(EndSoft(1), [], 0), Done(EndSoft(1), [], 0);
    es, w := HalfCreatedAndGone(os);
    es, w, a := CallAlone(w0, es, w, t, 2, EndSoft(1));
    es, w, b := CallAlone(w0, es, w, t, 0, Create(3));
    TwoCalls(t, w.log, a, b);
    LeakAtEnd(os, t, a, b, w);
  }

  lemma LeakAtEnd(os: Os, t: Table, a: Done, b: Done, w: World)
    requires TwoThreads(os, NORMAL) && t == BegunTable(os) && |w.func| == |b.seen| == HW_THREADS
    requires a.call == EndSoft(1) && a.seen == w.func && b.call == Create(3) && b.prio == REALTIME
    requires w.func == os.func[3 := true][1 := false]
    requires Table(w.slots, SoftBits(w.modes)) == Atomic(Atomic(t, a), b)
    ensures Count(w.slots, SLOT_S) > 0 && forall k :: 0 <= k < HW_THREADS ==> !(Soft(w.modes[k]) && w.func[k])
  {
    StartedSoftBits(os, NORMAL);
    HasSoftSlot(os);
    CreationRaceLeaksExactly(t, w.func, b.seen, 1, 3);
    var d1, d2 := Done(EndSoft(1), w.func, 0), Done(Create(3), b.seen, REALTIME);
    SamePrio(t, a, d1);
    assert b == d2;
    var t2 := Atomic(Atomic(t, a), b);
    assert !OtherSeen(t2, w.func, 1);
    forall k | 0 <= k < HW_THREADS ensures !(Soft(w.modes[k]) && w.func[k]) {
      assert Soft(w.modes[k]) == t2.soft[k];
    }
  }

  /** Only a creation looks at the priority. */
  lemma SamePrio(t: Table, a: Done, b: Done)
    requires |t.soft| == |a.seen| == HW_THREADS && a.call.Valid() && !a.call.Create?
    requires b.call == a.call && b.seen == a.seen
    ensures Atomic(t, a) == Atomic(t, b)
  {
    SoftBitsOfAsOs(t, a.seen, a.prio, 0, TMODE_HARD);
    SoftBitsOfAsOs(t, a.seen, b.prio, 0, TMODE_HARD);
    if !a.call.SetNum? {
      SeenIsLive(t, a.seen, a.prio, a.call.tid);
      SeenIsLive(t, a.seen, b.prio, a.call.tid);
    }
  }

  /** The same when thread 1, soft and alive, is made hard by thread 2 while thread 0 creates thread 3. */
  lemma SoftSlotLeaksByPromotion(os: Os) returns (es: seq<Event>)
    requires TwoThreads(os, NORMAL)
    ensures var w := FireAll(Begun(os), es);
            && w.lock == -1 && Count(w.slots, SLOT_S) > 0 && |w.func| == HW_THREADS
            && forall k :: 0 <= k < HW_THREADS ==> !(Soft(w.modes[k]) && w.func[k])
  {
    var w0, t, w, a, b := Begun(os), BegunTable(os), Begun(os), Done(EndSoft(1), [], 0), Done(EndSoft(1), [], 0);
    es, w := HalfCreated(os);
    es, w, a := CallAlone(w0, es, w, t, 2, ToHard(1));
    es, w, b := CallAlone(w0, es, w, t, 0, Create(3));
    TwoCalls(t, w.log, a, b);
    PromotionLeakAtEnd(os, t, a, b, w);
  }

  lemma PromotionLeakAtEnd(os: Os, t: Table, a: Done, b: Done, w: World)
    requires TwoThreads(os, NORMAL) && t == BegunTable(os) && |w.func| == |b.seen| == HW_THREADS
    requires a.call == ToHard(1) && a.seen == w.func && b.call == Create(3) && b.prio == REALTIME
    requires w.func == os.func[3 := true]
    requires Table(w.slots, SoftBits(w.modes)) == Atomic(Atomic(t, a), b)
    ensures Count(w.slots, SLOT_S) > 0 && forall k :: 0 <= k < HW_THREADS ==> !(Soft(w.modes[k]) && w.func[k])
  {
    StartedSoftBits(os, NORMAL);
    HasSoftSlot(os);
    var d1, d2 := Done(ToHard(1), w.func, 0), Done(Create(3), b.seen, REALTIME);
    PromotionRaceLeaksExactly(t, w.func, b.seen, 1, 3);
    SamePrio(t, a, d1);
    ToHardDoes(t, d1);
    CreateDoes(Atomic(t, d1), d2);
    assert b == d2 && !OtherSeen(Atomic(Atomic(t, a), b), w.func, 1);
    forall k | 0 <= k < HW_THREADS ensures !(Soft(w.modes[k]) && w.func[k]) {
      assert Soft(w.modes[k]) == Atomic(Atomic(t, a), b).soft[k];
    }
  }

  lemma HasSoftSlot(os: Os)
    requires TwoThreads(os, NORMAL)
    ensures Count(BegunTable(os).slots, SLOT_S) > 0
  {
    KernelRuns.StartFeedsExactly(os);
    assert OsKernelStart(os).LiveSoft(1) by { assert StartsSoft(os, 1); }
  }

  /** Thread 1, hard, ends. */
  lemma Gone(os: Os) returns (es: seq<Event>, w: World)
    requires os.Shape() && os.num == 3
    ensures FireAll(Begun(os), es) == w && Linear(w, BegunTable(os)) && w.lock == -1 && w.log == []
    ensures w.func == os.func[1 := false] && w.priority == os.priority && w.procs == [Idle, Idle, Idle]
  {
    es := [FuncWrite(1, false)];
    w := Fire(Begun(os), FuncWrite(1, false));
    assert es[1..] == [];
    assert w.procs == [Idle, Idle, Idle];
  }

  /** No creation: thread 1, hard, ends, and thread 2, terminating it, has read that it is hard when thread 0
      makes it soft. At the end a SOFT slot is there, and no live thread is soft. */
  lemma SoftSlotLeaksByDemotion(os: Os) returns (es: seq<Event>)
    requires TwoThreads(os, REALTIME)
    ensures var w := FireAll(Begun(os), es);
            && w.lock == -1 && Count(w.slots, SLOT_S) > 0 && |w.func| == HW_THREADS
            && forall k :: 0 <= k < HW_THREADS ==> !(Soft(w.modes[k]) && w.func[k])
  {
    var w0, t, w, a, b := Begun(os), BegunTable(os), Begun(os), Done(EndSoft(1), [], 0), Done(EndSoft(1), [], 0);
    es, w := Gone(os);
    es, w, a := CallAlone(w0, es, w, t, 0, ToSoft(1));
    es, w, b := CallAlone(w0, es, w, t, 2, SetNum(1, 0));
    TwoCalls(t, w.log, a, b);
    DemotionLeakAtEnd(os, t, a, b, w);
  }

  lemma DemotionLeakAtEnd(os: Os, t: Table, a: Done, b: Done, w: World)
    requires TwoThreads(os, REALTIME) && t == BegunTable(os) && |w.func| == |b.seen| == HW_THREADS
    requires a.call == ToSoft(1) && a.seen == w.func && b.call == SetNum(1, 0) && w.func == os.func[1 := false]
    requires Table(w.slots, SoftBits(w.modes)) == Atomic(Atomic(t, a), b)
    ensures Count(w.slots, SLOT_S) > 0 && forall k :: 0 <= k < HW_THREADS ==> !(Soft(w.modes[k]) && w.func[k])
  {
    StartedSoftBits(os, REALTIME);
    KernelLeaks.ManyDisabled(t.slots);
    var d1, d2 := Done(ToSoft(1), w.func, 0), Done(SetNum(1, 0), b.seen, 0);
    DemotionRaceLeaksExactly(t, w.func, b.seen, 1);
    SamePrio(t, a, d1);
    SamePrio(Atomic(t, d1), b, d2);
    assert !OtherSeen(Atomic(Atomic(t, a), b), w.func, 1);
    forall k | 0 <= k < HW_THREADS ensures !(Soft(w.modes[k]) && w.func[k]) {
      assert Soft(w.modes[k]) == Atomic(Atomic(t, a), b).soft[k];
    }
  }

  /** Thread 1, hard, is made soft by thread 2 while thread 0 creates thread 3: at the end the lock is free, thread 1 is
      alive and soft, and there is no SOFT slot. */
  lemma DemotedThreadStarves(os: Os) returns (es: seq<Event>)
    requires TwoThreads(os, REALTIME)
    ensures var w := FireAll(Begun(os), es);
            && w.lock == -1 && |w.func| == HW_THREADS && w.func[1] && Soft(w.modes[1])
            && Count(w.slots, SLOT_S) == 0 && Count(w.slots, 1) == 0
  {
    var w0, t, w, a, b := Begun(os), BegunTable(os), Begun(os), Done(EndSoft(1), [], 0), Done(EndSoft(1), [], 0);
    es, w := HalfCreated(os);
    es, w, a := CallAlone(w0, es, w, t, 2, ToSoft(1));
    es, w, b := CallAlone(w0, es, w, t, 0, Create(3));
    TwoCalls(t, w.log, a, b);
    StarvedAtEnd(os, t, a, b, w);
  }

  lemma StarvedAtEnd(os: Os, t: Table, a: Done, b: Done, w: World)
    requires TwoThreads(os, REALTIME) && t == BegunTable(os) && |w.func| == |b.seen| == HW_THREADS
    requires a.call == ToSoft(1) && a.seen == w.func && b.call == Create(3) && b.prio == REALTIME
    requires w.func == os.func[3 := true]
    requires Table(w.slots, SoftBits(w.modes)) == Atomic(Atomic(t, a), b)
    ensures w.func[1] && Soft(w.modes[1]) && Count(w.slots, SLOT_S) == 0 && Count(w.slots, 1) == 0
  {
    StartedSoftBits(os, REALTIME);
    NoSoftSlot(os);
    CreationRaceStarvesExactly(t, w.func, b.seen, 1, 3);
    SamePrio(t, a, Done(ToSoft(1), w.func, 0));
    assert b == Done(Create(3), b.seen, REALTIME);
    assert OtherSeen(t, w.func, 1);
    assert Soft(w.modes[1]) == Atomic(Atomic(t, a), b).soft[1];
  }

  lemma NoSoftSlot(os: Os)
    requires TwoThreads(os, REALTIME)
    ensures Count(StartSlots(os), SLOT_S) == 0
  {
    KernelRuns.SoftIdMeaning(os, HW_THREADS);
    CountZero(StartSlots(os), SLOT_S);
  }

  /** Both beginnings are reached from a reset by creating threads 1 and 2. */
  lemma TwoThreadsReached(os: Os, prios: seq<int>, joins: seq<bool>, prio: int)
    requires os.Shape() && |prios| == |joins| == HW_THREADS && Supported(prio)
    ensures var cs := [New(Attr(prio, true)), New(Attr(REALTIME, true))];
            TwoThreads(KernelRuns.Prepared(OsKernelReset(os, prios, joins), cs), prio)
  {
    var os0, cs := OsKernelReset(os, prios, joins), [New(Attr(prio, true)), New(Attr(REALTIME, true))];
    KernelRuns.PreparedReady(os0, cs);
    assert cs[1..] == [cs[1]] && cs[1..][1..] == [];
    var os1 := Apply(os0, cs[0]);
    assert KernelRuns.Prepared(os0, cs) == KernelRuns.Prepared(os1, cs[1..]) == Apply(os1, cs[1]);
  }
}
