/** The slot-changing calls of flexpret_scheduler.c run by eight hardware threads at once, one
    register or table access a step. Suspend, resume and zombie writes, thread starts and exits, and
    the priority field change outside slot_mutex at any moment. Every interleaving leaves the slots
    register and the soft bits as if each call had run at once, in the order the calls took the lock. */
module SlotLocking {
  import opened Registers
  import opened SlotTable
  import opened KernelSpec
  import opened History

  datatype SlotCall =
    | SetNum(id: nat, n: int)    // osSchedulerSetSlotNum, osSchedulerSetSoftSlotNum
    | EndSoft(tid: nat)          // srtt_terminate
    | ToHard(tid: nat)           // change_srtt_to_hrtt
    | ToSoft(tid: nat)           // change_hrtt_to_srtt
    | Create(tid: nat)           // thread_after_create
  {
    predicate Valid() {
      if SetNum? then id < 16 && id != SLOT_D else tid < HW_THREADS
    }
  }

  /** One access inside the critical section. NumRead and NumWrite are the register read and write of
      set_slot_num; the other Get acts fill local variables; Decide is the branching on them. */
  datatype Act =
    | GetSlots | GetModes | GetFunc(i: nat) | GetPriority
    | NumRead(id: nat, n: int) | NumWrite
    | SetSoft(on: bool) | ClearZombie
    | Decide

  /** What the running call has read: tmodes only as the test for TMODE_SA or TMODE_SZ. stage counts
      the decisions still to come. */
  datatype Local = Local(slots: Slots, soft: seq<bool>, seen: seq<bool>, prio: int, buf: Slots, stage: nat)

  datatype Proc = Idle | Wanting(call: SlotCall) | Inside(call: SlotCall, todo: seq<Act>, local: Local)

  /** A finished call with what it saw of the tables that change outside the lock. */
  datatype Done = Done(call: SlotCall, seen: seq<bool>, prio: int)

  /** lock is -1 when free. */
  datatype World = World(
    lock: int, slots: Slots, modes: Modes, func: seq<bool>, priority: seq<int>,
    procs: seq<Proc>, log: seq<Done>)

  function SoftBits(t: Modes): (b: seq<bool>)
    ensures |b| == HW_THREADS
  {
    seq(HW_THREADS, i requires 0 <= i < 8 => Soft(t[i]))
  }

  /** The local variables on entry. */
  function Entry(): (l: Local)
    ensures Sane(l) && l.stage == 2
  {
    Local(seq(8, _ => SLOT_D), seq(8, _ => false), seq(8, _ => false), 0, seq(8, _ => SLOT_D), 2)
  }

  predicate Sane(l: Local) { |l.soft| == |l.seen| == HW_THREADS }

  function Program(c: SlotCall): seq<Act> {
    match c
    case SetNum(id, n) => [NumRead(id, n), NumWrite]
    case EndSoft(_) => [GetModes, GetFunc(0), Decide]
    case ToHard(_) => [GetSlots, GetModes, GetFunc(0), Decide]
    case ToSoft(_) => [GetSlots, GetModes, GetFunc(0), Decide]
    case Create(_) => [GetPriority, Decide]
  }

  predicate SeesOtherSoft(l: Local, tid: nat)
    requires |l.soft| == |l.seen| == HW_THREADS
  {
    exists i :: 0 <= i < HW_THREADS && i != tid && l.soft[i] && l.seen[i]
  }

  function Num(id: nat, n: int, when: bool): seq<Act> {
    if when then [NumRead(id, n), NumWrite] else []
  }

  /** The accesses after a decision, fixed by what has been read. */
  function Plan(c: SlotCall, l: Local): seq<Act>
    requires |l.soft| == |l.seen| == HW_THREADS && c.Valid()
  {
    match c
    case SetNum(_, _) => []
    case EndSoft(tid) => [NumRead(tid, 0), NumWrite] + Num(SLOT_S, 0, !SeesOtherSoft(l, tid))
    case ToHard(tid) =>
      Num(tid, 1, Count(l.slots, tid) == 0) + [SetSoft(false)]
      + Num(SLOT_S, 0, !SeesOtherSoft(l, tid) && Count(l.slots, SLOT_S) != 0)
    case ToSoft(tid) =>
      Num(SLOT_S, 1, !SeesOtherSoft(l, tid) && Count(l.slots, SLOT_S) == 0) + [SetSoft(true)]
      + Num(tid, 0, Count(l.slots, tid) != 0)
    case Create(tid) =>
      if l.stage == 1 then
        if l.prio == REALTIME then [SetSoft(false), ClearZombie, NumRead(tid, 1), NumWrite]
        else if l.prio == NORMAL then [SetSoft(true), ClearZombie, GetSlots, GetFunc(tid), Decide]
        else []
      else Num(SLOT_S, 1, !(l.seen[tid] && Count(l.slots, SLOT_S) != 0))
  }

  /** One access: func and prio are the values of the tables at that moment. */
  datatype Effect = Effect(todo: seq<Act>, local: Local, slots: Slots, soft: seq<bool>)

  function Do(
      c: SlotCall, todo: seq<Act>, l: Local, slots: Slots, soft: seq<bool>, func: seq<bool>, prio: int): (e: Effect)
    requires c.Valid() && todo != [] && Sane(l) && |soft| == |func| == HW_THREADS
    ensures Sane(e.local) && |e.soft| == HW_THREADS
    ensures e.local.stage < l.stage || (e.local.stage == l.stage && |e.todo| < |todo|)
            || (e.local.stage == l.stage && |e.todo| == |todo| && todo[0].GetFunc? && e.todo[0].GetFunc?
                && todo[0].i < e.todo[0].i < 8)
  {
    var rest := todo[1..];
    match todo[0]
    case GetSlots => Effect(rest, l.(slots := slots), slots, soft)
    case GetModes => Effect(rest, l.(soft := soft), slots, soft)
    case GetFunc(i) =>
      if i >= HW_THREADS then Effect(rest, l, slots, soft)
      else if c.Create? || i + 1 == HW_THREADS then Effect(rest, l.(seen := l.seen[i := func[i]]), slots, soft)
      else Effect([GetFunc(i + 1)] + rest, l.(seen := l.seen[i := func[i]]), slots, soft)
    case GetPriority => Effect(rest, l.(prio := prio), slots, soft)
    case NumRead(id, n) =>
      if id < 16 then Effect(rest, l.(buf := WithSlotNum(slots, id, n)), slots, soft) else Effect(rest, l, slots, soft)
    case NumWrite => Effect(rest, l, l.buf, soft)
    case SetSoft(on) => Effect(rest, l, slots, if c.SetNum? then soft else soft[c.tid := on])
    case ClearZombie => Effect(rest, l, slots, soft)
    case Decide =>
      if l.stage == 0 then Effect(rest, l, slots, soft)
      else var l' := l.(stage := l.stage - 1); Effect(Plan(c, l'), l', slots, soft)
  }

  datatype Event =
    | Ask(p: nat, call: SlotCall)
    | TakeLock(p: nat)
    | Access(p: nat)
    | FreeLock(p: nat)
    | ZombieBit(tid: nat, on: bool)       // osThreadSuspend, osThreadResume, the end of thread_terminate
    | FuncWrite(tid: nat, alive: bool)    // osThreadNew, thread_clean
    | PriorityWrite(tid: nat, prio: int)  // osThreadNew, osThreadSetPriority

  predicate WorldShape(w: World) {
    && |w.func| == HW_THREADS && |w.priority| == HW_THREADS
    && (forall p :: 0 <= p < |w.procs| ==>
         (w.procs[p].Wanting? ==> w.procs[p].call.Valid())
         && (w.procs[p].Inside? ==> w.procs[p].call.Valid() && Sane(w.procs[p].local)))
  }

  /** A thread's mode after an access: the soft bit it computed, and the zombie bit unless
      thread_after_create has just cleared it. */
  function ModeAfter(m: nat, soft: bool, act: Act, own: bool): (r: nat)
    ensures r < 4 && Soft(r) == soft
  {
    Code(soft, Zombie(m) && !(act == ClearZombie && own))
  }

  function ModesAfter(t: Modes, soft: seq<bool>, act: Act, c: SlotCall): (r: Modes)
    requires |soft| == HW_THREADS && c.Valid()
    ensures SoftBits(r) == soft
  {
    seq(8, i requires 0 <= i < 8 => ModeAfter(t[i], soft[i], act, c.Create? && c.tid == i))
  }

  function PriorityRead(w: World, c: SlotCall): int
    requires |w.priority| == HW_THREADS && c.Valid()
  {
    if c.SetNum? then 0 else w.priority[c.tid]
  }

  function AccessEffect(w: World, p: nat): (d: Effect)
    requires WorldShape(w) && p < |w.procs| && w.procs[p].Inside? && w.procs[p].todo != []
    ensures Sane(d.local) && |d.soft| == HW_THREADS
  {
    Do(w.procs[p].call, w.procs[p].todo, w.procs[p].local, w.slots, SoftBits(w.modes), w.func,
       PriorityRead(w, w.procs[p].call))
  }

  function Stored(w: World, p: nat, d: Effect): World
    requires WorldShape(w) && p < |w.procs| && w.procs[p].Inside? && w.procs[p].todo != []
    requires Sane(d.local) && |d.soft| == HW_THREADS
  {
    w.(slots := d.slots, modes := ModesAfter(w.modes, d.soft, w.procs[p].todo[0], w.procs[p].call),
       procs := w.procs[p := Inside(w.procs[p].call, d.todo, d.local)])
  }

  /** An event that is not possible changes nothing. */
  function Fire(w: World, e: Event): (w': World)
    requires WorldShape(w)
    ensures WorldShape(w')
  {
    match e
    case Ask(p, c) =>
      if p < |w.procs| && w.procs[p].Idle? && c.Valid() then w.(procs := w.procs[p := Wanting(c)]) else w
    case TakeLock(p) =>
      if p < |w.procs| && w.procs[p].Wanting? && w.lock == -1
      then w.(lock := p, procs := w.procs[p := Inside(w.procs[p].call, Program(w.procs[p].call), Entry())])
      else w
    case Access(p) =>
      if p < |w.procs| && w.procs[p].Inside? && w.procs[p].todo != [] then
        Stored(w, p, AccessEffect(w, p))
      else w
    case FreeLock(p) =>
      if p < |w.procs| && w.procs[p].Inside? && w.procs[p].todo == []
      then w.(lock := -1, procs := w.procs[p := Idle],
              log := w.log + [Done(w.procs[p].call, w.procs[p].local.seen, w.procs[p].local.prio)])
      else w
    case ZombieBit(tid, on) =>
      if tid < HW_THREADS then w.(modes := WithMode(w.modes, tid, if on then TMODE_ZOMBIE else TMODE_ACTIVE)) else w
    case FuncWrite(tid, alive) => if tid < HW_THREADS then w.(func := w.func[tid := alive]) else w
    case PriorityWrite(tid, prio) => if tid < HW_THREADS then w.(priority := w.priority[tid := prio]) else w
  }

  // ---------- the atomic reading ----------

  datatype Table = Table(slots: Slots, soft: seq<bool>)

  function AsOs(t: Table, seen: seq<bool>, prio: int): (os: Os)
    requires |t.soft| == |seen| == HW_THREADS
    ensures os.Shape()
  {
    Os(t.slots, seq(8, i requires 0 <= i < 8 => Code(t.soft[i], false)), seen, seq(HW_THREADS, _ => prio),
       seq(HW_THREADS, _ => false), 1, -1, true)
  }

  /** The whole call at once, as the functions of KernelSpec define it. */
  function Atomic(t: Table, d: Done): (t': Table)
    requires |t.soft| == |d.seen| == HW_THREADS && d.call.Valid()
    ensures |t'.soft| == HW_THREADS
  {
    var os := AsOs(t, d.seen, d.prio);
    var os' := match d.call
      case SetNum(id, n) => os.(slots := WithSlotNum(os.slots, id, n))
      case EndSoft(tid) => SrttTerminate(os, tid)
      case ToHard(tid) => ChangeSrttToHrtt(os, tid)
      case ToSoft(tid) => ChangeHrttToSrtt(os, tid)
      case Create(tid) => ThreadAfterCreate(os, tid);
    Table(os'.slots, SoftBits(os'.modes))
  }

  ghost predicate GoodLog(log: seq<Done>) {
    forall i :: 0 <= i < |log| ==> |log[i].seen| == HW_THREADS && log[i].call.Valid()
  }

  /** The logged calls one after another. */
  ghost function Replay(t: Table, log: seq<Done>): (t': Table)
    requires |t.soft| == HW_THREADS && GoodLog(log)
    ensures |t'.soft| == HW_THREADS
  {
    if log == [] then t else Atomic(Replay(t, log[..|log| - 1]), log[|log| - 1])
  }

  // ---------- a call left to itself ----------

  /** The tables outside the lock at one moment. */
  datatype View = View(func: seq<bool>, prio: int)

  ghost function Now(obs: seq<View>): (v: View)
    ensures |v.func| == HW_THREADS
  {
    if obs != [] && |obs[0].func| == HW_THREADS then obs[0] else View(seq(8, _ => false), 0)
  }

  ghost function Later(obs: seq<View>): seq<View> { if obs == [] then [] else obs[1..] }

  /** Run the rest of a call with nothing happening to slots and modes; obs is what its accesses will
      see of the unlocked tables, one view an access. */
  ghost function Finish(
      c: SlotCall, todo: seq<Act>, l: Local, slots: Slots, soft: seq<bool>, obs: seq<View>): (r: (Table, Done))
    requires c.Valid() && Sane(l) && |soft| == HW_THREADS
    ensures |r.0.soft| == |r.1.seen| == HW_THREADS && r.1.call == c
    decreases l.stage, |todo|, if todo != [] && todo[0].GetFunc? && todo[0].i < 8 then 8 - todo[0].i else 0
  {
    if todo == [] then (Table(slots, soft), Done(c, l.seen, l.prio))
    else
      var d := Do(c, todo, l, slots, soft, Now(obs).func, Now(obs).prio);
      Finish(c, d.todo, d.local, d.slots, d.soft, Later(obs))
  }

  /** seen after the entries from i on are read, one view each. */
  ghost function ReadFrom(seen: seq<bool>, i: nat, obs: seq<View>): (r: seq<bool>)
    requires |seen| == HW_THREADS && i <= HW_THREADS
    ensures |r| == HW_THREADS
    decreases HW_THREADS - i
  {
    if i == HW_THREADS then seen else ReadFrom(seen[i := Now(obs).func[i]], i + 1, Later(obs))
  }

  ghost function LaterBy(obs: seq<View>, n: nat): seq<View> { if n == 0 then obs else LaterBy(Later(obs), n - 1) }

  lemma DoGetFunc(c: SlotCall, i: nat, rest: seq<Act>, l: Local, slots: Slots, soft: seq<bool>, v: View)
    requires c.Valid() && Sane(l) && |soft| == |v.func| == HW_THREADS && i < HW_THREADS && !c.Create?
    ensures Do(c, [GetFunc(i)] + rest, l, slots, soft, v.func, v.prio)
            == Effect(if i + 1 < HW_THREADS then [GetFunc(i + 1)] + rest else rest,
                      l.(seen := l.seen[i := v.func[i]]), slots, soft)
  {
    assert ([GetFunc(i)] + rest)[1..] == rest;
  }

  lemma {:induction false} FinishReads(
      c: SlotCall, i: nat, rest: seq<Act>, l: Local, slots: Slots, soft: seq<bool>, obs: seq<View>)
    requires c.Valid() && Sane(l) && |soft| == HW_THREADS && i < HW_THREADS && !c.Create?
    ensures Finish(c, [GetFunc(i)] + rest, l, slots, soft, obs)
            == Finish(c, rest, l.(seen := ReadFrom(l.seen, i, obs)), slots, soft, LaterBy(obs, HW_THREADS - i))
    decreases HW_THREADS - i
  {
    FinishStep(c, GetFunc(i), rest, l, slots, soft, obs);
    DoGetFunc(c, i, rest, l, slots, soft, Now(obs));
    if i + 1 < HW_THREADS {
      FinishReads(c, i + 1, rest, l.(seen := l.seen[i := Now(obs).func[i]]), slots, soft, Later(obs));
    }
  }

  lemma FinishStep(c: SlotCall, act: Act, rest: seq<Act>, l: Local, slots: Slots, soft: seq<bool>, obs: seq<View>)
    requires c.Valid() && Sane(l) && |soft| == HW_THREADS
    ensures var d := Do(c, [act] + rest, l, slots, soft, Now(obs).func, Now(obs).prio);
            Finish(c, [act] + rest, l, slots, soft, obs) == Finish(c, d.todo, d.local, d.slots, d.soft, Later(obs))
  {
  }

  lemma DoNumRead(c: SlotCall, id: nat, n: int, rest: seq<Act>, l: Local, slots: Slots, soft: seq<bool>, v: View)
    requires c.Valid() && Sane(l) && |soft| == |v.func| == HW_THREADS && id < 16
    ensures Do(c, [NumRead(id, n)] + rest, l, slots, soft, v.func, v.prio)
            == Effect(rest, l.(buf := WithSlotNum(slots, id, n)), slots, soft)
  {
    assert ([NumRead(id, n)] + rest)[1..] == rest;
  }

  lemma FinishNumRead(
      c: SlotCall, id: nat, n: int, rest: seq<Act>, l: Local, slots: Slots, soft: seq<bool>, obs: seq<View>)
    requires c.Valid() && Sane(l) && |soft| == HW_THREADS && id < 16
    ensures Finish(c, [NumRead(id, n)] + rest, l, slots, soft, obs)
            == Finish(c, rest, l.(buf := WithSlotNum(slots, id, n)), slots, soft, Later(obs))
  {
    FinishStep(c, NumRead(id, n), rest, l, slots, soft, obs);
    DoNumRead(c, id, n, rest, l, slots, soft, Now(obs));
  }

  lemma FinishNumWrite(c: SlotCall, rest: seq<Act>, l: Local, slots: Slots, soft: seq<bool>, obs: seq<View>)
    requires c.Valid() && Sane(l) && |soft| == HW_THREADS
    ensures Finish(c, [NumWrite] + rest, l, slots, soft, obs) == Finish(c, rest, l, l.buf, soft, Later(obs))
  {
    assert ([NumWrite] + rest)[1..] == rest;
  }

  lemma FinishNum(
      c: SlotCall, id: nat, n: int, when: bool, rest: seq<Act>, l: Local, slots: Slots, soft: seq<bool>, obs: seq<View>)
    requires c.Valid() && Sane(l) && |soft| == HW_THREADS && id < 16
    ensures Finish(c, Num(id, n, when) + rest, l, slots, soft, obs)
            == if when
               then Finish(c, rest, l.(buf := WithSlotNum(slots, id, n)), WithSlotNum(slots, id, n), soft,
                           Later(Later(obs)))
               else Finish(c, rest, l, slots, soft, obs)
  {
    if when {
      assert Num(id, n, when) + rest == [NumRead(id, n)] + ([NumWrite] + rest);
      FinishNumRead(c, id, n, [NumWrite] + rest, l, slots, soft, obs);
      FinishNumWrite(c, rest, l.(buf := WithSlotNum(slots, id, n)), slots, soft, Later(obs));
    } else {
      assert Num(id, n, when) + rest == rest;
    }
  }

  lemma FinishLastNum(c: SlotCall, id: nat, n: int, when: bool, l: Local, slots: Slots, soft: seq<bool>, obs: seq<View>)
    requires c.Valid() && Sane(l) && |soft| == HW_THREADS && id < 16
    ensures Finish(c, Num(id, n, when), l, slots, soft, obs)
            == (Table(if when then WithSlotNum(slots, id, n) else slots, soft), Done(c, l.seen, l.prio))
  {
    FinishNum(c, id, n, when, [], l, slots, soft, obs);
    assert Num(id, n, when) + [] == Num(id, n, when);
  }

  lemma FinishSoft(c: SlotCall, on: bool, rest: seq<Act>, l: Local, slots: Slots, soft: seq<bool>, obs: seq<View>)
    requires c.Valid() && Sane(l) && |soft| == HW_THREADS && !c.SetNum?
    ensures Finish(c, [SetSoft(on)] + rest, l, slots, soft, obs)
            == Finish(c, rest, l, slots, soft[c.tid := on], Later(obs))
  {
    assert ([SetSoft(on)] + rest)[1..] == rest;
  }

  lemma FinishDecide(c: SlotCall, l: Local, slots: Slots, soft: seq<bool>, obs: seq<View>)
    requires c.Valid() && Sane(l) && |soft| == HW_THREADS && l.stage > 0
    ensures var l' := l.(stage := l.stage - 1);
            Finish(c, [Decide], l, slots, soft, obs) == Finish(c, Plan(c, l'), l', slots, soft, Later(obs))
  {
  }

  lemma FinishGetModes(c: SlotCall, rest: seq<Act>, l: Local, slots: Slots, soft: seq<bool>, obs: seq<View>)
    requires c.Valid() && Sane(l) && |soft| == HW_THREADS
    ensures Finish(c, [GetModes] + rest, l, slots, soft, obs)
            == Finish(c, rest, l.(soft := soft), slots, soft, Later(obs))
  {
    assert ([GetModes] + rest)[1..] == rest;
    FinishStep(c, GetModes, rest, l, slots, soft, obs);
  }

  lemma FinishGetSlots(c: SlotCall, rest: seq<Act>, l: Local, slots: Slots, soft: seq<bool>, obs: seq<View>)
    requires c.Valid() && Sane(l) && |soft| == HW_THREADS
    ensures Finish(c, [GetSlots] + rest, l, slots, soft, obs)
            == Finish(c, rest, l.(slots := slots), slots, soft, Later(obs))
  {
    assert ([GetSlots] + rest)[1..] == rest;
    FinishStep(c, GetSlots, rest, l, slots, soft, obs);
  }

  /** The reads of a terminate or priority change, up to its decision. */
  lemma FinishToPlan(c: SlotCall, slots: Slots, soft: seq<bool>, obs: seq<View>) returns (l: Local, later: seq<View>)
    requires c.Valid() && |soft| == HW_THREADS && (c.EndSoft? || c.ToHard? || c.ToSoft?)
    ensures Sane(l) && l.soft == soft && (!c.EndSoft? ==> l.slots == slots)
    ensures Finish(c, Program(c), Entry(), slots, soft, obs) == Finish(c, Plan(c, l), l, slots, soft, later)
  {
    var l0 := if c.EndSoft? then Entry() else Entry().(slots := slots);
    var o0 := if c.EndSoft? then obs else Later(obs);
    var reading := [GetFunc(0)] + [Decide];
    if c.EndSoft? {
      assert Program(c) == [GetModes] + reading;
    } else {
      assert Program(c) == [GetSlots] + ([GetModes] + reading);
      FinishGetSlots(c, [GetModes] + reading, Entry(), slots, soft, obs);
    }
    FinishGetModes(c, reading, l0, slots, soft, o0);
    l, later := FinishReading(c, l0.(soft := soft), slots, soft, Later(o0));
  }

  lemma FinishReading(
      c: SlotCall, l: Local, slots: Slots, soft: seq<bool>, obs: seq<View>) returns (l': Local, later: seq<View>)
    requires c.Valid() && Sane(l) && |soft| == HW_THREADS && !c.Create? && l.stage == 2
    ensures Sane(l') && l'.soft == l.soft && l'.slots == l.slots
    ensures Finish(c, [GetFunc(0)] + [Decide], l, slots, soft, obs) == Finish(c, Plan(c, l'), l', slots, soft, later)
  {
    FinishReads(c, 0, [Decide], l, slots, soft, obs);
    var l2 := l.(seen := ReadFrom(l.seen, 0, obs));
    FinishDecide(c, l2, slots, soft, LaterBy(obs, HW_THREADS));
    l', later := l2.(stage := 1), Later(LaterBy(obs, HW_THREADS));
  }

  lemma SeesWhatOsSees(l: Local, t: Table, prio: int, tid: nat)
    requires Sane(l) && |t.soft| == HW_THREADS && l.soft == t.soft && tid < HW_THREADS
    ensures SeesOtherSoft(l, tid) <==> AsOs(t, l.seen, prio).OtherLiveSoft(tid)
  {
    var os := AsOs(t, l.seen, prio);
    if SeesOtherSoft(l, tid) {
      var i :| 0 <= i < HW_THREADS && i != tid && l.soft[i] && l.seen[i];
      assert os.LiveSoft(i);
    }
    if os.OtherLiveSoft(tid) {
      var i :| 0 <= i < HW_THREADS && i != tid && os.LiveSoft(i);
      assert l.soft[i] && l.seen[i];
    }
  }

  lemma SoftBitsOfAsOs(t: Table, seen: seq<bool>, prio: int, tid: nat, tmode: int)
    requires |t.soft| == |seen| == HW_THREADS && tid < HW_THREADS
    ensures SoftBits(AsOs(t, seen, prio).modes) == t.soft
    ensures tmode == TMODE_HARD || tmode == TMODE_HA ==>
              SoftBits(WithMode(AsOs(t, seen, prio).modes, tid, tmode)) == t.soft[tid := false]
    ensures tmode == TMODE_SOFT || tmode == TMODE_SA ==>
              SoftBits(WithMode(AsOs(t, seen, prio).modes, tid, tmode)) == t.soft[tid := true]
  {
  }

  /** A call by itself does what its KernelSpec function says of the values it reads. */
  ghost predicate IsAtomic(c: SlotCall, slots: Slots, soft: seq<bool>, obs: seq<View>)
    requires c.Valid() && |soft| == HW_THREADS
  {
    var (t, d) := Finish(c, Program(c), Entry(), slots, soft, obs);
    t == Atomic(Table(slots, soft), d)
  }

  lemma EndSoftAtomic(tid: nat, slots: Slots, soft: seq<bool>, obs: seq<View>)
    requires |soft| == HW_THREADS && tid < HW_THREADS
    ensures IsAtomic(EndSoft(tid), slots, soft, obs)
  {
    var c := EndSoft(tid);
    var l, later := FinishToPlan(c, slots, soft, obs);
    var s := WithSlotNum(slots, tid, 0);
    var drop := !SeesOtherSoft(l, tid);
    assert Plan(c, l) == Num(tid, 0, true) + Num(SLOT_S, 0, drop);
    FinishNum(c, tid, 0, true, Num(SLOT_S, 0, drop), l, slots, soft, later);
    FinishLastNum(c, SLOT_S, 0, drop, l.(buf := s), s, soft, Later(Later(later)));
    SeesWhatOsSees(l, Table(slots, soft), l.prio, tid);
    SoftBitsOfAsOs(Table(slots, soft), l.seen, l.prio, tid, TMODE_HA);
  }

  lemma ToHardAtomic(tid: nat, slots: Slots, soft: seq<bool>, obs: seq<View>)
    requires |soft| == HW_THREADS && tid < HW_THREADS
    ensures IsAtomic(ToHard(tid), slots, soft, obs)
  {
    var c := ToHard(tid);
    var l, later := FinishToPlan(c, slots, soft, obs);
    var own, drop := Count(slots, tid) == 0, !SeesOtherSoft(l, tid) && Count(slots, SLOT_S) != 0;
    var s := if own then WithSlotNum(slots, tid, 1) else slots;
    var l1 := if own then l.(buf := s) else l;
    var o1 := if own then Later(Later(later)) else later;
    assert Plan(c, l) == Num(tid, 1, own) + ([SetSoft(false)] + Num(SLOT_S, 0, drop));
    FinishNum(c, tid, 1, own, [SetSoft(false)] + Num(SLOT_S, 0, drop), l, slots, soft, later);
    FinishSoft(c, false, Num(SLOT_S, 0, drop), l1, s, soft, o1);
    FinishLastNum(c, SLOT_S, 0, drop, l1, s, soft[tid := false], Later(o1));
    SeesWhatOsSees(l, Table(slots, soft), l.prio, tid);
    SoftBitsOfAsOs(Table(slots, soft), l.seen, l.prio, tid, TMODE_HARD);
  }

  lemma ToSoftAtomic(tid: nat, slots: Slots, soft: seq<bool>, obs: seq<View>)
    requires |soft| == HW_THREADS && tid < HW_THREADS
    ensures IsAtomic(ToSoft(tid), slots, soft, obs)
  {
    var c := ToSoft(tid);
    var l, later := FinishToPlan(c, slots, soft, obs);
    var add, drop := !SeesOtherSoft(l, tid) && Count(slots, SLOT_S) == 0, Count(slots, tid) != 0;
    var s := if add then WithSlotNum(slots, SLOT_S, 1) else slots;
    var l1 := if add then l.(buf := s) else l;
    var o1 := if add then Later(Later(later)) else later;
    assert Plan(c, l) == Num(SLOT_S, 1, add) + ([SetSoft(true)] + Num(tid, 0, drop));
    FinishNum(c, SLOT_S, 1, add, [SetSoft(true)] + Num(tid, 0, drop), l, slots, soft, later);
    FinishSoft(c, true, Num(tid, 0, drop), l1, s, soft, o1);
    FinishLastNum(c, tid, 0, drop, l1, s, soft[tid := true], Later(o1));
    SeesWhatOsSees(l, Table(slots, soft), l.prio, tid);
    SoftBitsOfAsOs(Table(slots, soft), l.seen, l.prio, tid, TMODE_SOFT);
  }

  lemma FinishClearZombie(c: SlotCall, rest: seq<Act>, l: Local, slots: Slots, soft: seq<bool>, obs: seq<View>)
    requires c.Valid() && Sane(l) && |soft| == HW_THREADS
    ensures Finish(c, [ClearZombie] + rest, l, slots, soft, obs) == Finish(c, rest, l, slots, soft, Later(obs))
  {
    assert ([ClearZombie] + rest)[1..] == rest;
    FinishStep(c, ClearZombie, rest, l, slots, soft, obs);
  }

  lemma FinishGetOwn(tid: nat, rest: seq<Act>, l: Local, slots: Slots, soft: seq<bool>, obs: seq<View>)
    requires tid < HW_THREADS && Sane(l) && |soft| == HW_THREADS
    ensures Finish(Create(tid), [GetFunc(tid)] + rest, l, slots, soft, obs)
            == Finish(Create(tid), rest, l.(seen := l.seen[tid := Now(obs).func[tid]]), slots, soft, Later(obs))
  {
    assert ([GetFunc(tid)] + rest)[1..] == rest;
    FinishStep(Create(tid), GetFunc(tid), rest, l, slots, soft, obs);
  }

  /** The part of thread_after_create for a normal priority. */
  lemma CreateSoft(tid: nat, l: Local, slots: Slots, soft: seq<bool>, obs: seq<View>)
    requires |soft| == HW_THREADS && tid < HW_THREADS && Sane(l) && l.stage == 1
    ensures var todo := [SetSoft(true), ClearZombie, GetSlots, GetFunc(tid), Decide];
            var (t, d) := Finish(Create(tid), todo, l, slots, soft, obs);
            && t == Table(if d.seen[tid] && Count(slots, SLOT_S) != 0 then slots else WithSlotNum(slots, SLOT_S, 1),
                          soft[tid := true])
            && d.prio == l.prio
  {
    var c := Create(tid);
    var soft' := soft[tid := true];
    var rest2 := [GetFunc(tid)] + [Decide];
    var rest1 := [GetSlots] + rest2;
    assert [SetSoft(true), ClearZombie, GetSlots, GetFunc(tid), Decide] == [SetSoft(true)] + ([ClearZombie] + rest1);
    FinishSoft(c, true, [ClearZombie] + rest1, l, slots, soft, obs);
    FinishClearZombie(c, rest1, l, slots, soft', Later(obs));
    var o2 := Later(Later(obs));
    FinishGetSlots(c, rest2, l, slots, soft', o2);
    FinishGetOwn(tid, [Decide], l.(slots := slots), slots, soft', Later(o2));
    var l1 := l.(slots := slots, seen := l.seen[tid := Now(Later(o2)).func[tid]]);
    FinishDecide(c, l1, slots, soft', Later(Later(o2)));
    var add := !(l1.seen[tid] && Count(slots, SLOT_S) != 0);
    FinishLastNum(c, SLOT_S, 1, add, l1.(stage := 0), slots, soft', Later(Later(Later(o2))));
  }

  lemma CreateHard(tid: nat, l: Local, slots: Slots, soft: seq<bool>, obs: seq<View>)
    requires |soft| == HW_THREADS && tid < HW_THREADS && Sane(l)
    ensures Finish(Create(tid), [SetSoft(false), ClearZombie, NumRead(tid, 1), NumWrite], l, slots, soft, obs)
            == (Table(WithSlotNum(slots, tid, 1), soft[tid := false]), Done(Create(tid), l.seen, l.prio))
  {
    var c := Create(tid);
    var rest := Num(tid, 1, true);
    assert [SetSoft(false), ClearZombie, NumRead(tid, 1), NumWrite] == [SetSoft(false)] + ([ClearZombie] + rest);
    FinishSoft(c, false, [ClearZombie] + rest, l, slots, soft, obs);
    FinishClearZombie(c, rest, l, slots, soft[tid := false], Later(obs));
    FinishLastNum(c, tid, 1, true, l, slots, soft[tid := false], Later(Later(obs)));
  }

  lemma CreateAtomic(tid: nat, slots: Slots, soft: seq<bool>, obs: seq<View>)
    requires |soft| == HW_THREADS && tid < HW_THREADS
    ensures IsAtomic(Create(tid), slots, soft, obs)
  {
    var c := Create(tid);
    var prio := Now(obs).prio;
    var l := Entry().(prio := prio);
    assert Program(c)[1..] == [Decide];
    assert Finish(c, Program(c), Entry(), slots, soft, obs) == Finish(c, [Decide], l, slots, soft, Later(obs));
    FinishDecide(c, l, slots, soft, Later(obs));
    var l1 := l.(stage := 1);
    var (t, d) := Finish(c, Program(c), Entry(), slots, soft, obs);
    if prio == REALTIME {
      CreateHard(tid, l1, slots, soft, Later(Later(obs)));
      SoftBitsOfAsOs(Table(slots, soft), d.seen, prio, tid, TMODE_HA);
    } else if prio == NORMAL {
      CreateSoft(tid, l1, slots, soft, Later(Later(obs)));
      SoftBitsOfAsOs(Table(slots, soft), d.seen, prio, tid, TMODE_SA);
    } else {
      SoftBitsOfAsOs(Table(slots, soft), d.seen, prio, tid, TMODE_HA);
    }
  }

  lemma CallAtomic(c: SlotCall, slots: Slots, soft: seq<bool>, obs: seq<View>)
    requires c.Valid() && |soft| == HW_THREADS
    ensures IsAtomic(c, slots, soft, obs)
  {
    match c
    case SetNum(id, n) =>
      assert Program(c) == Num(id, n, true);
      FinishLastNum(c, id, n, true, Entry(), slots, soft, obs);
      SoftBitsOfAsOs(Table(slots, soft), Entry().seen, 0, 0, TMODE_HA);
    case EndSoft(tid) => EndSoftAtomic(tid, slots, soft, obs);
    case ToHard(tid) => ToHardAtomic(tid, slots, soft, obs);
    case ToSoft(tid) => ToSoftAtomic(tid, slots, soft, obs);
    case Create(tid) => CreateAtomic(tid, slots, soft, obs);
  }

  // ---------- every interleaving ----------

  /** Whatever the rest of a call will see of the unlocked tables, finishing it gives its atomic
      result on the table the lock was taken with. */
  ghost predicate OnTrack(p: Proc, base: Table, slots: Slots, soft: seq<bool>)
    requires p.Inside? && p.call.Valid() && Sane(p.local) && |soft| == |base.soft| == HW_THREADS
  {
    forall obs: seq<View> {:trigger Finish(p.call, p.todo, p.local, slots, soft, obs)} ::
      var (t, d) := Finish(p.call, p.todo, p.local, slots, soft, obs); t == Atomic(base, d)
  }

  ghost predicate Linear(w: World, init: Table) {
    && WorldShape(w) && |init.soft| == HW_THREADS && GoodLog(w.log)
    && (forall p :: 0 <= p < |w.procs| ==> (w.procs[p].Inside? <==> w.lock == p))
    && (w.lock == -1 || 0 <= w.lock < |w.procs|)
    && (w.lock == -1 ==> Table(w.slots, SoftBits(w.modes)) == Replay(init, w.log))
    && (w.lock != -1 ==> OnTrack(w.procs[w.lock], Replay(init, w.log), w.slots, SoftBits(w.modes)))
  }

  /** A zombie or active write keeps every soft bit, so no count of soft threads can change. */
  lemma ZombieKeepsSoftBits(t: Modes, tid: nat, on: bool)
    requires tid < HW_THREADS
    ensures SoftBits(WithMode(t, tid, if on then TMODE_ZOMBIE else TMODE_ACTIVE)) == SoftBits(t)
  {
  }

  lemma OnTrackAtEntry(c: SlotCall, slots: Slots, soft: seq<bool>)
    requires c.Valid() && |soft| == HW_THREADS
    ensures OnTrack(Inside(c, Program(c), Entry()), Table(slots, soft), slots, soft)
  {
    forall obs: seq<View>
      ensures var (t, d) := Finish(c, Program(c), Entry(), slots, soft, obs); t == Atomic(Table(slots, soft), d)
    {
      CallAtomic(c, slots, soft, obs);
    }
  }

  lemma TakeLockLinear(w: World, init: Table, p: nat)
    requires Linear(w, init) && p < |w.procs| && w.procs[p].Wanting? && w.lock == -1
    ensures Linear(Fire(w, TakeLock(p)), init)
  {
    OnTrackAtEntry(w.procs[p].call, w.slots, SoftBits(w.modes));
  }

  lemma AccessLinear(w: World, init: Table, p: nat)
    requires Linear(w, init) && p < |w.procs| && w.procs[p].Inside? && w.procs[p].todo != []
    ensures Linear(Fire(w, Access(p)), init)
  {
    var w' := Fire(w, Access(p));
    var q := w.procs[p];
    var d := AccessEffect(w, p);
    var base := Replay(init, w.log);
    forall obs: seq<View>
      ensures var (t, dn) := Finish(q.call, d.todo, d.local, d.slots, d.soft, obs); t == Atomic(base, dn)
    {
      var all := [View(w.func, PriorityRead(w, q.call))] + obs;
      assert Later(all) == obs;
      assert Finish(q.call, q.todo, q.local, w.slots, SoftBits(w.modes), all)
          == Finish(q.call, d.todo, d.local, d.slots, d.soft, obs);
    }
    assert OnTrack(w'.procs[p], base, w'.slots, SoftBits(w'.modes));
  }

  lemma FreeLockLinear(w: World, init: Table, p: nat)
    requires Linear(w, init) && p < |w.procs| && w.procs[p].Inside? && w.procs[p].todo == []
    ensures Linear(Fire(w, FreeLock(p)), init)
  {
    var q := w.procs[p];
    var w' := Fire(w, FreeLock(p));
    assert Finish(q.call, q.todo, q.local, w.slots, SoftBits(w.modes), [])
        == (Table(w.slots, SoftBits(w.modes)), Done(q.call, q.local.seen, q.local.prio));
    assert w'.log[..|w.log|] == w.log;
  }

  /** Every event keeps the table equal to the calls so far, one after another. */
  lemma FireLinear(w: World, init: Table, e: Event)
    requires Linear(w, init)
    ensures Linear(Fire(w, e), init)
  {
    match e
    case Ask(p, c) =>
    case TakeLock(p) =>
      if p < |w.procs| && w.procs[p].Wanting? && w.lock == -1 { TakeLockLinear(w, init, p); }
    case Access(p) =>
      if p < |w.procs| && w.procs[p].Inside? && w.procs[p].todo != [] { AccessLinear(w, init, p); }
    case FreeLock(p) =>
      if p < |w.procs| && w.procs[p].Inside? && w.procs[p].todo == [] { FreeLockLinear(w, init, p); }
    case ZombieBit(tid, on) =>
      if tid < HW_THREADS { ZombieKeepsSoftBits(w.modes, tid, on); }
    case FuncWrite(tid, alive) =>
    case PriorityWrite(tid, prio) =>
  }

  function FireAll(w: World, es: seq<Event>): World
    requires WorldShape(w)
    decreases |es|
  {
    if es == [] then w else FireAll(Fire(w, es[0]), es[1..])
  }

  lemma {:induction false} RunLinear(w: World, init: Table, es: seq<Event>)
    requires Linear(w, init)
    ensures Linear(FireAll(w, es), init)
    decreases |es|
  {
    if es != [] {
      FireLinear(w, init, es[0]);
      RunLinear(Fire(w, es[0]), init, es[1..]);
    }
  }

  function Quiet(n: nat, slots: Slots, modes: Modes, func: seq<bool>, priority: seq<int>): World {
    World(-1, slots, modes, func, priority, seq(n, _ => Idle), [])
  }

  // ---------- what the unlocked writes leave ----------

  /** The next access of the running call clears thread i's zombie bit. */
  predicate Clears(p: Proc, i: nat) {
    p.Inside? && p.todo != [] && p.todo[0] == ClearZombie && p.call == Create(i)
  }

  /** What an event writes to thread i's zombie bit. */
  function ZombieWrite(w: World, e: Event, i: nat): Write<bool> {
    if e.ZombieBit? && e.tid == i then Put(e.on)
    else if e.Access? && e.p < |w.procs| && Clears(w.procs[e.p], i) then Put(false)
    else Keep
  }

  function FuncWritten(e: Event, i: nat): Write<bool> {
    if e.FuncWrite? && e.tid == i then Put(e.alive) else Keep
  }

  function PriorityWritten(e: Event, i: nat): Write<int> {
    if e.PriorityWrite? && e.tid == i then Put(e.prio) else Keep
  }

  function ZombieWrites(w: World, es: seq<Event>, i: nat): seq<Write<bool>>
    requires WorldShape(w)
    decreases |es|
  {
    if es == [] then [] else [ZombieWrite(w, es[0], i)] + ZombieWrites(Fire(w, es[0]), es[1..], i)
  }

  function FuncWrites(es: seq<Event>, i: nat): seq<Write<bool>> {
    if es == [] then [] else [FuncWritten(es[0], i)] + FuncWrites(es[1..], i)
  }

  function PriorityWrites(es: seq<Event>, i: nat): seq<Write<int>> {
    if es == [] then [] else [PriorityWritten(es[0], i)] + PriorityWrites(es[1..], i)
  }

  /** An access of the running call changes the zombie bit of thread i only by clearing it. */
  lemma AccessZombie(w: World, p: nat, i: nat)
    requires WorldShape(w) && p < |w.procs| && w.procs[p].Inside? && w.procs[p].todo != [] && i < HW_THREADS
    ensures var w' := Fire(w, Access(p));
            && Zombie(w'.modes[i]) == (Zombie(w.modes[i]) && !Clears(w.procs[p], i))
            && w'.func == w.func && w'.priority == w.priority
  {
  }

  lemma FireWrites(w: World, e: Event, i: nat)
    requires WorldShape(w) && i < HW_THREADS
    ensures var w' := Fire(w, e);
            && Zombie(w'.modes[i]) == Last(Zombie(w.modes[i]), [ZombieWrite(w, e, i)])
            && w'.func[i] == Last(w.func[i], [FuncWritten(e, i)])
            && w'.priority[i] == Last(w.priority[i], [PriorityWritten(e, i)])
  {
    if e.Access? && e.p < |w.procs| && w.procs[e.p].Inside? && w.procs[e.p].todo != [] { AccessZombie(w, e.p, i); }
  }

  /** In every interleaving each zombie bit, and each entry of the other two unlocked tables, is what the
      events on that one thread wrote last, or what it was if none did. */
  lemma {:induction false} RunWrites(w: World, es: seq<Event>, i: nat)
    requires WorldShape(w) && i < HW_THREADS
    ensures WorldShape(FireAll(w, es))
    ensures Zombie(FireAll(w, es).modes[i]) == Last(Zombie(w.modes[i]), ZombieWrites(w, es, i))
    ensures FireAll(w, es).func[i] == Last(w.func[i], FuncWrites(es, i))
    ensures FireAll(w, es).priority[i] == Last(w.priority[i], PriorityWrites(es, i))
    decreases |es|
  {
    if es != [] {
      var w1 := Fire(w, es[0]);
      FireWrites(w, es[0], i);
      RunWrites(w1, es[1..], i);
      LastFirst(Zombie(w.modes[i]), ZombieWrite(w, es[0], i), ZombieWrites(w1, es[1..], i));
      LastFirst(w.func[i], FuncWritten(es[0], i), FuncWrites(es[1..], i));
      LastFirst(w.priority[i], PriorityWritten(es[0], i), PriorityWrites(es[1..], i));
    }
  }

  /** A creation has its clearing write still before it, unless it has read an unsupported priority. */
  predicate ToClear(p: Proc, i: nat) {
    && p.Inside? && p.call == Create(i) && i < HW_THREADS && Sane(p.local)
    && ((p.todo == [GetPriority, Decide] && p.local.stage == 2)
        || (p.todo == [Decide] && p.local.stage == 2)
        || (p.todo == [] && p.local.prio != REALTIME && p.local.prio != NORMAL)
        || (|p.todo| >= 2 && p.todo[0].SetSoft? && p.todo[1] == ClearZombie)
        || (p.todo != [] && p.todo[0] == ClearZombie))
  }

  lemma ToClearStep(w: World, e: Event, p: nat, i: nat)
    requires WorldShape(w) && p < |w.procs| && ToClear(w.procs[p], i) && e != FreeLock(p)
    ensures |Fire(w, e).procs| == |w.procs|
    ensures (e == Access(p) && Clears(w.procs[p], i)) || ToClear(Fire(w, e).procs[p], i)
  {
  }

  lemma {:induction false} RunLengths(w: World, es: seq<Event>, i: nat)
    requires WorldShape(w)
    ensures |FireAll(w, es).procs| == |w.procs| && |ZombieWrites(w, es, i)| == |es|
    decreases |es|
  {
    if es != [] { RunLengths(Fire(w, es[0]), es[1..], i); }
  }

  /** Access(p) cleared thread i's zombie bit in the run. */
  ghost predicate Cleared(w: World, es: seq<Event>, p: nat, i: nat)
    requires WorldShape(w)
  {
    exists k :: 0 <= k < |es| && es[k] == Access(p) && k < |ZombieWrites(w, es, i)|
                && ZombieWrites(w, es, i)[k] == Put(false)
  }

  lemma ClearedLater(w: World, es: seq<Event>, p: nat, i: nat)
    requires WorldShape(w) && es != [] && Cleared(Fire(w, es[0]), es[1..], p, i)
    ensures Cleared(w, es, p, i)
  {
    var w1 := Fire(w, es[0]);
    var k :| 0 <= k < |es[1..]| && es[1..][k] == Access(p) && k < |ZombieWrites(w1, es[1..], i)|
             && ZombieWrites(w1, es[1..], i)[k] == Put(false);
    assert es[k + 1] == Access(p) && ZombieWrites(w, es, i)[k + 1] == Put(false);
  }

  lemma {:induction false} ClearsByEnd(w: World, es: seq<Event>, p: nat, i: nat)
    requires WorldShape(w) && p < |w.procs| && ToClear(w.procs[p], i) && FreeLock(p) !in es
    ensures p < |FireAll(w, es).procs|
    ensures Cleared(w, es, p, i) || ToClear(FireAll(w, es).procs[p], i)
    decreases |es|
  {
    RunLengths(w, es, i);
    if es != [] {
      ToClearStep(w, es[0], p, i);
      if es[0] == Access(p) && Clears(w.procs[p], i) {
        assert ZombieWrites(w, es, i)[0] == Put(false);
      } else {
        ClearsByEnd(Fire(w, es[0]), es[1..], p, i);
        if Cleared(Fire(w, es[0]), es[1..], p, i) { ClearedLater(w, es, p, i); }
      }
    }
  }

  /** Every creation that takes the lock and reads a supported priority has cleared its thread's zombie bit by
      its end, whatever happened between. */
  lemma CreationClears(w: World, es: seq<Event>, p: nat, i: nat)
    requires WorldShape(w) && p < |w.procs| && w.procs[p] == Wanting(Create(i)) && w.lock == -1
    requires FreeLock(p) !in es
    ensures p < |FireAll(Fire(w, TakeLock(p)), es).procs|
    ensures var w1 := Fire(w, TakeLock(p));
            var q := FireAll(w1, es).procs[p];
            q.Inside? && q.todo == [] && (q.local.prio == REALTIME || q.local.prio == NORMAL) ==> Cleared(w1, es, p, i)
  {
    ClearsByEnd(Fire(w, TakeLock(p)), es, p, i);
  }

  /** In every interleaving, from any contents of the tables, whenever the lock is free the slots
      register and the soft bits hold what the logged calls leave when run one after another, and at any time
      each zombie bit is what the events on its own thread wrote last: no update is lost. */
  lemma NoUpdateLost(n: nat, slots: Slots, modes: Modes, func: seq<bool>, priority: seq<int>, es: seq<Event>)
    requires |func| == |priority| == HW_THREADS
    ensures var w := FireAll(Quiet(n, slots, modes, func, priority), es);
            var init := Table(slots, SoftBits(modes));
            GoodLog(w.log)
            && (w.lock == -1 ==> w.slots == Replay(init, w.log).slots && SoftBits(w.modes) == Replay(init, w.log).soft)
    ensures var w0 := Quiet(n, slots, modes, func, priority);
            forall i :: 0 <= i < HW_THREADS ==>
              Zombie(FireAll(w0, es).modes[i]) == Last(Zombie(modes[i]), ZombieWrites(w0, es, i))
  {
    var w0 := Quiet(n, slots, modes, func, priority);
    forall i | 0 <= i < HW_THREADS
      ensures Zombie(FireAll(w0, es).modes[i]) == Last(Zombie(modes[i]), ZombieWrites(w0, es, i))
    {
      RunWrites(w0, es, i);
    }
    RunLinear(Quiet(n, slots, modes, func, priority), Table(slots, SoftBits(modes)), es);
  }
}
