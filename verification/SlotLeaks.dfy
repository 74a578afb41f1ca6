/** Slot conservation over every interleaving: the dual of SlotRuns. Slots and SOFT slots stand only beside
    threads that no terminate has finished with, as long as no call counts a half-created thread and no
    priority call and terminate of one thread are under way together. */
module SlotLeaks {
  import opened Registers
  import opened SlotTable
  import opened KernelSpec
  import KernelRuns
  import KernelLeaks
  import opened SlotLocking
  import opened SlotRaces
  import opened SlotRuns

  /** The machine of SlotRuns, with the threads whose terminate or join has been asked for, and those with
      which it has finished. */
  datatype Marked = Marked(x: Sys, ending: seq<bool>, ended: seq<bool>)

  predicate Shaped(m: Marked) {
    |m.x.life| == |m.ending| == |m.ended| == HW_THREADS && WorldShape(m.x.w)
  }

  predicate Ends(c: SlotCall) { c.EndSoft? || (c.SetNum? && c.id < HW_THREADS && c.n == 0) }

  predicate Prioritises(c: SlotCall) { c.ToHard? || c.ToSoft? }

  /** The thread that a call names. */
  function Target(c: SlotCall): nat { if c.SetNum? then c.id else c.tid }

  predicate Asks(w: World, e: Event) {
    e.Ask? && e.p < |w.procs| && w.procs[e.p].Idle? && e.call.Valid()
  }

  predicate Finishes(w: World, e: Event) {
    e.FreeLock? && e.p < |w.procs| && w.procs[e.p].Inside? && w.procs[e.p].todo == []
  }

  function Step(m: Marked, e: Event): (m': Marked)
    requires Shaped(m)
    ensures Shaped(m')
  {
    var w := m.x.w;
    Marked(SlotRuns.Next(m.x, e),
           if Asks(w, e) && Ends(e.call) then m.ending[Target(e.call) := true] else m.ending,
           if Finishes(w, e) && Ends(w.procs[e.p].call) then m.ended[Target(w.procs[e.p].call) := true] else m.ended)
  }

  /** The thread's creation is over and no terminate has finished with it. */
  predicate Unended(life: seq<Life>, ended: seq<bool>, k: int)
    requires |life| == |ended| == HW_THREADS
  {
    0 <= k < HW_THREADS && (life[k] == Alive || (life[k] == Dead && !ended[k]))
  }

  /** q is under way with a priority call, or a creation, of thread k. */
  predicate Prioritising(q: Proc, k: nat) { !q.Idle? && Prioritises(q.call) && q.call.tid == k }

  predicate Creating(q: Proc, k: nat) { !q.Idle? && q.call.Create? && q.call.tid == k }

  /** A terminate or a promotion is about to count a soft thread whose creation is not over. */
  predicate CountsHalf(x: Sys, p: nat)
    requires |x.life| == HW_THREADS && WorldShape(x.w) && p < |x.w.procs| && x.w.procs[p].Inside?
  {
    var q := x.w.procs[p];
    && (q.call.EndSoft? || q.call.ToHard?) && q.todo != [] && q.todo[0].GetFunc?
    && q.todo[0].i < HW_THREADS && q.todo[0].i != q.call.tid
    && x.life[q.todo[0].i] == Half && Soft(x.w.modes[q.todo[0].i])
  }

  /** Whom a call may name: a creation is the only one of its thread; a terminate or join finds no priority
      call of its thread under way, and the soft bit as it read the priority; a priority call names a
      created thread that is not being ended. */
  ghost predicate AskedInOrder(m: Marked, c: SlotCall)
    requires Shaped(m) && c.Valid()
  {
    && MayAsk(m.x.life, c)
    && (c.Create? ==> forall p :: 0 <= p < |m.x.w.procs| ==> !Creating(m.x.w.procs[p], c.tid))
    && (Ends(c) ==> forall p :: 0 <= p < |m.x.w.procs| ==> !Prioritising(m.x.w.procs[p], Target(c)))
    && (c.SetNum? ==> !Soft(m.x.w.modes[c.id]))
    && (Prioritises(c) ==> (m.x.life[c.tid] == Alive || m.x.life[c.tid] == Dead) && !m.ending[c.tid])
  }

  /** What the run theorem asks of its events. */
  ghost predicate Orderly(m: Marked, e: Event)
    requires Shaped(m)
  {
    match e
    case FuncWrite(tid, alive) =>
      tid < HW_THREADS ==>
        if alive then m.x.life[tid] == Unborn && Supported(m.x.w.priority[tid])
        else m.x.life[tid] == Alive || m.x.life[tid] == Dead
    case PriorityWrite(tid, prio) => Supported(prio)
    case Ask(p, c) => Asks(m.x.w, e) ==> AskedInOrder(m, c)
    case Access(p) => p < |m.x.w.procs| && m.x.w.procs[p].Inside? ==> !CountsHalf(m.x, p)
    case TakeLock(_) => true
    case FreeLock(_) => true
    case ZombieBit(_, _) => true
  }

  // ------------------------------------------------------------------------- the invariant

  ghost predicate Lives(m: Marked)
    requires Shaped(m)
  {
    && (forall k :: 0 <= k < HW_THREADS ==> (m.x.w.func[k] <==> m.x.life[k] == Half || m.x.life[k] == Alive))
    && (forall k :: 0 <= k < HW_THREADS && m.x.life[k] != Unborn ==> Supported(m.x.w.priority[k]))
    && (forall k :: 0 <= k < HW_THREADS ==> (m.ended[k] ==> m.ending[k]) && (m.ending[k] ==> m.x.life[k] == Dead))
  }

  /** What stays true of the thread that a call under way names. */
  predicate Fits(c: SlotCall, life: seq<Life>, ending: seq<bool>, soft: seq<bool>)
    requires |life| == |ending| == |soft| == HW_THREADS && c.Valid()
  {
    match c
    case SetNum(id, n) => id < HW_THREADS && n == 0 && ending[id] && !soft[id]
    case EndSoft(tid) => ending[tid]
    case Create(tid) => life[tid] == Half
    case _ => !ending[c.tid] && (life[c.tid] == Alive || life[c.tid] == Dead)
  }

  ghost predicate Calls(w: World, life: seq<Life>, ending: seq<bool>, soft: seq<bool>)
    requires WorldShape(w) && |life| == |ending| == |soft| == HW_THREADS
  {
    && (forall p :: 0 <= p < |w.procs| && !w.procs[p].Idle? ==> Fits(w.procs[p].call, life, ending, soft))
    && (forall p, q, k: nat :: 0 <= p < q < |w.procs| && Creating(w.procs[p], k) ==> !Creating(w.procs[q], k))
  }

  predicate Softless(todo: seq<Act>) { forall i :: 0 <= i < |todo| ==> !todo[i].SetSoft? }

  /** The call inside writes no soft bit but its own thread's, and none if it ends that thread. */
  predicate OwnBit(q: Proc, base: seq<bool>, now: seq<bool>)
    requires q.Inside? && |base| == |now| == HW_THREADS
  {
    && (forall k :: 0 <= k < HW_THREADS && now[k] != base[k] ==>
          !q.call.SetNum? && !q.call.EndSoft? && q.call.tid == k)
    && (q.call.EndSoft? ==> Softless(q.todo))
  }

  /** A terminate or a promotion has counted only threads that have not ended. */
  ghost predicate Counting(q: Proc, life: seq<Life>, ended: seq<bool>, base: Table, now: Table)
    requires q.Inside? && q.call.Valid() && Sane(q.local) && |life| == |ended| == |base.soft| == HW_THREADS
  {
    && (q.call.EndSoft? || q.call.ToHard? ==>
          && (Unread(q.todo) || NoReads(q.todo)) && (Unread(q.todo) ==> now == base)
          && forall k :: 0 <= k < HW_THREADS && k != q.call.tid && base.soft[k] && q.local.seen[k] ==>
               Unended(life, ended, k))
    && (q.call.Create? ==> (q.todo != [] && q.todo[0].GetPriority?) || Supported(q.local.prio))
  }

  /** Conservation: slots of their own only for hard threads not ended, SOFT slots only beside soft ones. */
  ghost predicate Kept(t: Table, life: seq<Life>, ended: seq<bool>)
    requires |t.soft| == |life| == |ended| == HW_THREADS
  {
    && (forall c: nat :: c != SLOT_S && c != SLOT_D && Count(t.slots, c) > 0 ==>
          Unended(life, ended, c) && !t.soft[c])
    && (Count(t.slots, SLOT_S) > 0 ==> exists k :: Unended(life, ended, k) && t.soft[k])
  }

  ghost predicate Tidy(m: Marked) {
    && Shaped(m) && Linear(m.x.w, m.x.init) && Lives(m)
    && Calls(m.x.w, m.x.life, m.ending, Base(m.x).soft)
    && (forall p :: 0 <= p < |m.x.w.procs| && m.x.w.procs[p].Inside? ==>
          && OwnBit(m.x.w.procs[p], Base(m.x).soft, SoftBits(m.x.w.modes))
          && Counting(m.x.w.procs[p], m.x.life, m.ended, Base(m.x), SlotRuns.Now(m.x.w)))
    && Kept(Base(m.x), m.x.life, m.ended)
  }

  // --------------------------------------------------------------- one finished call conserves

  function EndedAfter(ended: seq<bool>, c: SlotCall): (r: seq<bool>)
    requires |ended| == HW_THREADS && c.Valid()
    ensures |r| == HW_THREADS
  {
    if Ends(c) then ended[Target(c) := true] else ended
  }

  /** A soft thread other than tid has not ended. */
  ghost predicate OtherUnended(t: Table, life: seq<Life>, ended: seq<bool>, tid: nat)
    requires |t.soft| == |life| == |ended| == HW_THREADS
  {
    exists k :: k != tid && Unended(life, ended, k) && t.soft[k]
  }

  /** The finished call gives a slot to a thread that has ended, or leaves SOFT slots although every soft
      thread but the one it names has: because that one ends, because it has counted an ended or a
      half-created one, or because it makes an ended one soft. */
  ghost predicate Strays(t: Table, d: Done, life: seq<Life>, ended: seq<bool>)
    requires |t.soft| == |d.seen| == |life| == |ended| == HW_THREADS && d.call.Valid()
  {
    match d.call
    case SetNum(id, _) => Count(t.slots, SLOT_S) > 0 && !OtherUnended(t, life, ended, id)
    case EndSoft(tid) =>
      Count(t.slots, SLOT_S) > 0 && OtherSeen(t, d.seen, tid) && !OtherUnended(t, life, ended, tid)
    case ToHard(tid) =>
      || (!Unended(life, ended, tid) && Count(t.slots, SLOT_D) >= 2)
      || (Count(t.slots, SLOT_S) > 0 && OtherSeen(t, d.seen, tid) && !OtherUnended(t, life, ended, tid))
    case ToSoft(tid) =>
      && !Unended(life, ended, tid) && !OtherUnended(t, life, ended, tid)
      && (Count(t.slots, SLOT_S) > 0 || (!OtherSeen(t, d.seen, tid) && Count(t.slots, SLOT_D) >= 2))
    case Create(_) => false
  }

  /** Whoever is not named keeps what it had; the thread named and the SOFT slots decide. */
  lemma KeptButNamed(t: Table, r: Table, life: seq<Life>, ended: seq<bool>, c: SlotCall)
    requires |t.soft| == |r.soft| == |life| == |ended| == HW_THREADS && c.Valid() && Target(c) < HW_THREADS
    requires Kept(t, life, ended) && OthersKept(t.slots, r.slots, Target(c))
    requires forall i :: 0 <= i < HW_THREADS && i != Target(c) ==> r.soft[i] == t.soft[i]
    ensures var x, life', ended' := Target(c), Committed(life, c), EndedAfter(ended, c);
            Kept(r, life', ended') <==>
              && (Count(r.slots, x) > 0 ==> Unended(life', ended', x) && !r.soft[x])
              && (Count(r.slots, SLOT_S) > 0 ==>
                    OtherUnended(t, life, ended, x) || (Unended(life', ended', x) && r.soft[x]))
  {
    var x, life', ended' := Target(c), Committed(life, c), EndedAfter(ended, c);
    if k :| Unended(life', ended', k) && r.soft[k] { assert k != x ==> Unended(life, ended, k) && t.soft[k]; }
    if k :| k != x && Unended(life, ended, k) && t.soft[k] { assert Unended(life', ended', k) && r.soft[k]; }
    if Count(r.slots, x) > 0 ==> Unended(life', ended', x) && !r.soft[x] {
      forall y: nat | y != SLOT_S && y != SLOT_D && Count(r.slots, y) > 0
        ensures Unended(life', ended', y) && !r.soft[y]
      {
        if y != x { assert Count(t.slots, y) > 0 && Unended(life, ended, y); }
      }
    }
  }

  lemma EndKeepsExactly(t: Table, d: Done, life: seq<Life>, ended: seq<bool>)
    requires |t.soft| == |d.seen| == |life| == |ended| == HW_THREADS && d.call.Valid() && Ends(d.call)
    requires Kept(t, life, ended) && life[Target(d.call)] == Dead
    ensures Kept(Atomic(t, d), Committed(life, d.call), EndedAfter(ended, d.call)) <==> !Strays(t, d, life, ended)
  {
    if d.call.SetNum? { SetNumDoes(t, d); } else { EndSoftDoes(t, d); }
    KeptButNamed(t, Atomic(t, d), life, ended, d.call);
  }

  lemma PriorityKeepsExactly(t: Table, d: Done, life: seq<Life>, ended: seq<bool>)
    requires |t.soft| == |d.seen| == |life| == |ended| == HW_THREADS && d.call.Valid() && Prioritises(d.call)
    requires Kept(t, life, ended)
    ensures Kept(Atomic(t, d), Committed(life, d.call), EndedAfter(ended, d.call)) <==> !Strays(t, d, life, ended)
  {
    if d.call.ToSoft? { ToSoftDoes(t, d); } else { ToHardDoes(t, d); }
    KeptButNamed(t, Atomic(t, d), life, ended, d.call);
  }

  lemma CreateKeeps(t: Table, d: Done, life: seq<Life>, ended: seq<bool>)
    requires |t.soft| == |d.seen| == |life| == |ended| == HW_THREADS && d.call.Valid() && d.call.Create?
    requires Kept(t, life, ended) && life[d.call.tid] == Half && Supported(d.prio)
    ensures Kept(Atomic(t, d), Committed(life, d.call), EndedAfter(ended, d.call))
  {
    CreateDoes(t, d);
    assert !Unended(life, ended, d.call.tid);
    if k :| Unended(life, ended, k) && t.soft[k] { assert OtherUnended(t, life, ended, d.call.tid); }
    KeptButNamed(t, Atomic(t, d), life, ended, d.call);
  }

  /** Exactly when a finished call, with whatever it saw, leaves a slot with an ended thread or a SOFT slot
      without a soft one. A terminate or join names a thread whose func is cleared, a creation one whose
      creation it is. */
  lemma CallKeepsExactly(t: Table, d: Done, life: seq<Life>, ended: seq<bool>)
    requires |t.soft| == |d.seen| == |life| == |ended| == HW_THREADS && d.call.Valid()
    requires MayAsk(life, d.call) && (d.call.Create? ==> Supported(d.prio))
    requires Kept(t, life, ended)
    ensures Kept(Atomic(t, d), Committed(life, d.call), EndedAfter(ended, d.call)) <==> !Strays(t, d, life, ended)
  {
    match d.call
    case SetNum(_, _) => EndKeepsExactly(t, d, life, ended);
    case EndSoft(_) => EndKeepsExactly(t, d, life, ended);
    case ToHard(_) => PriorityKeepsExactly(t, d, life, ended);
    case ToSoft(_) => PriorityKeepsExactly(t, d, life, ended);
    case Create(_) => CreateKeeps(t, d, life, ended);
  }

  /** What a finished call knows. */
  ghost predicate CountedRight(t: Table, d: Done, life: seq<Life>, ended: seq<bool>)
    requires |t.soft| == |d.seen| == |life| == |ended| == HW_THREADS && d.call.Valid()
  {
    && (d.call.EndSoft? || d.call.ToHard? ==>
          forall k :: 0 <= k < HW_THREADS && k != d.call.tid && t.soft[k] && d.seen[k] ==> Unended(life, ended, k))
    && (d.call.Create? ==> Supported(d.prio))
  }

  /** A finished call that named and counted right does not stray. */
  lemma CallKeeps(t: Table, d: Done, life: seq<Life>, ending: seq<bool>, ended: seq<bool>)
    requires |t.soft| == |d.seen| == |life| == |ending| == |ended| == HW_THREADS && d.call.Valid()
    requires forall k :: 0 <= k < HW_THREADS ==> (ended[k] ==> ending[k]) && (ending[k] ==> life[k] == Dead)
    requires Kept(t, life, ended) && Fits(d.call, life, ending, t.soft) && CountedRight(t, d, life, ended)
    ensures Kept(Atomic(t, d), Committed(life, d.call), EndedAfter(ended, d.call))
  {
    CallKeepsExactly(t, d, life, ended);
    if d.call.SetNum? && Count(t.slots, SLOT_S) > 0 {
      var k :| Unended(life, ended, k) && t.soft[k];
      assert OtherUnended(t, life, ended, d.call.id);
    }
    if (d.call.EndSoft? || d.call.ToHard?) && OtherSeen(t, d.seen, d.call.tid) {
      var k :| 0 <= k < HW_THREADS && k != d.call.tid && t.soft[k] && d.seen[k];
      assert OtherUnended(t, life, ended, d.call.tid);
    }
  }

  // ------------------------------------------------------------------------------- one access

  lemma AccessOwnBit(
      q: Proc, base: seq<bool>, slots: Slots, now: seq<bool>, func: seq<bool>, prio: int)
    requires q.Inside? && q.call.Valid() && Sane(q.local) && q.todo != [] && |base| == |now| == |func| == HW_THREADS
    requires OwnBit(q, base, now)
    ensures var d := Do(q.call, q.todo, q.local, slots, now, func, prio);
            OwnBit(Inside(q.call, d.todo, d.local), base, d.soft)
  {
    if q.call.EndSoft? { assert !q.todo[0].SetSoft? && Softless(q.todo[1..]); }
  }

  /** One access of a terminate's or a promotion's survey. */
  lemma SurveyCounts(q: Proc, life: seq<Life>, ended: seq<bool>, base: Table, func: seq<bool>, prio: int)
    requires q.Inside? && q.call.Valid() && Sane(q.local) && |life| == |ended| == |base.soft| == |func| == HW_THREADS
    requires (q.call.EndSoft? || q.call.ToHard?) && q.todo != [] && Counting(q, life, ended, base, base)
    requires Unread(q.todo)
    requires q.todo[0].GetFunc? && q.todo[0].i != q.call.tid && base.soft[q.todo[0].i] && func[q.todo[0].i] ==>
               life[q.todo[0].i] == Alive
    ensures var d := Do(q.call, q.todo, q.local, base.slots, base.soft, func, prio);
            && d.slots == base.slots && d.soft == base.soft
            && Counting(Inside(q.call, d.todo, d.local), life, ended, base, base)
  {
    var d := Do(q.call, q.todo, q.local, base.slots, base.soft, func, prio);
    if q.todo[0].GetFunc? {
      assert |q.todo| == 2 && q.todo[1..] == [Decide];
      if q.todo[0].i + 1 < HW_THREADS { assert d.todo == [GetFunc(q.todo[0].i + 1), Decide]; }
    } else {
      UnreadRest(q.todo);
    }
  }

  lemma LaterCounts(
      q: Proc, life: seq<Life>, ended: seq<bool>, base: Table, now: Table, func: seq<bool>, prio: int, later: Table)
    requires q.Inside? && q.call.Valid() && Sane(q.local)
    requires |life| == |ended| == |base.soft| == |now.soft| == |func| == HW_THREADS
    requires (q.call.EndSoft? || q.call.ToHard?) && q.todo != [] && Counting(q, life, ended, base, now)
    requires !Unread(q.todo)
    ensures var d := Do(q.call, q.todo, q.local, now.slots, now.soft, func, prio);
            Counting(Inside(q.call, d.todo, d.local), life, ended, base, later)
  {
    var d := Do(q.call, q.todo, q.local, now.slots, now.soft, func, prio);
    assert NoReads(q.todo[1..]);
    if q.todo[0] == Decide && q.local.stage > 0 { PlanWrites(q.call, q.local.(stage := q.local.stage - 1)); }
    NotBoth(d.todo);
  }

  lemma AccessCounts(m: Marked, p: nat)
    requires Tidy(m) && p < |m.x.w.procs| && m.x.w.procs[p].Inside? && m.x.w.procs[p].todo != []
    requires !CountsHalf(m.x, p)
    ensures var d := AccessEffect(m.x.w, p);
            Counting(Inside(m.x.w.procs[p].call, d.todo, d.local), m.x.life, m.ended, Base(m.x), Table(d.slots, d.soft))
  {
    var q, base, now, d := m.x.w.procs[p], Base(m.x), SlotRuns.Now(m.x.w), AccessEffect(m.x.w, p);
    var prio := PriorityRead(m.x.w, q.call);
    if q.call.EndSoft? || q.call.ToHard? {
      if Unread(q.todo) {
        SurveyCounts(q, m.x.life, m.ended, base, m.x.w.func, prio);
      } else {
        LaterCounts(q, m.x.life, m.ended, base, now, m.x.w.func, prio, Table(d.slots, d.soft));
      }
    } else if q.call.Create? {
      assert Fits(q.call, m.x.life, m.ending, base.soft);
    }
  }

  lemma AccessTidy(m: Marked, p: nat)
    requires Tidy(m) && p < |m.x.w.procs| && m.x.w.procs[p].Inside? && m.x.w.procs[p].todo != []
    requires !CountsHalf(m.x, p)
    ensures Tidy(Step(m, Access(p)))
  {
    var q, d, m' := m.x.w.procs[p], AccessEffect(m.x.w, p), Step(m, Access(p));
    AccessLinear(m.x.w, m.x.init, p);
    AccessCounts(m, p);
    AccessOwnBit(q, Base(m.x).soft, m.x.w.slots, SoftBits(m.x.w.modes), m.x.w.func, PriorityRead(m.x.w, q.call));
    assert m'.x.w == Stored(m.x.w, p, d) && Base(m'.x) == Base(m.x);
    SameCalls(m.x.w, m'.x.w, p, m.x.life, m.ending, Base(m.x).soft);
  }

  /** The calls under way are the same ones. */
  lemma SameCalls(w: World, w': World, p: nat, life: seq<Life>, ending: seq<bool>, soft: seq<bool>)
    requires WorldShape(w) && WorldShape(w') && |life| == |ending| == |soft| == HW_THREADS
    requires Calls(w, life, ending, soft) && p < |w.procs| == |w'.procs|
    requires forall k :: 0 <= k < |w.procs| && k != p ==> w'.procs[k] == w.procs[k]
    requires w'.procs[p].Idle? || (!w.procs[p].Idle? && w'.procs[p].call == w.procs[p].call)
    ensures Calls(w', life, ending, soft)
  {
    forall i, j, k: nat | 0 <= i < j < |w'.procs| && Creating(w'.procs[i], k) ensures !Creating(w'.procs[j], k) {
      assert Creating(w.procs[i], k) && !Creating(w.procs[j], k);
    }
  }

  // -------------------------------------------------------------------------- lock and unlock

  lemma TakeLockTidy(m: Marked, p: nat)
    requires Tidy(m) && p < |m.x.w.procs| && m.x.w.procs[p].Wanting? && m.x.w.lock == -1
    ensures Tidy(Step(m, TakeLock(p)))
  {
    var c, m' := m.x.w.procs[p].call, Step(m, TakeLock(p));
    TakeLockLinear(m.x.w, m.x.init, p);
    if Surveys(c) { assert Unread(Program(c)) by { assert Program(c)[|Program(c)| - 2] == GetFunc(0); } }
    assert Base(m'.x) == Base(m.x) == SlotRuns.Now(m.x.w);
    SameCalls(m.x.w, m'.x.w, p, m.x.life, m.ending, Base(m.x).soft);
  }

  /** A finished call has changed no soft bit but that of the thread it was to change. */
  lemma AtomicSoft(t: Table, d: Done)
    requires |t.soft| == |d.seen| == HW_THREADS && d.call.Valid() && (d.call.Create? ==> Supported(d.prio))
    ensures var r := Atomic(t, d);
            && (forall k :: 0 <= k < HW_THREADS && k != Target(d.call) ==> r.soft[k] == t.soft[k])
            && (d.call.SetNum? || d.call.EndSoft? ==> r.soft == t.soft)
  {
    match d.call
    case SetNum(_, _) => SoftBitsOfAsOs(t, d.seen, d.prio, 0, TMODE_HARD);
    case EndSoft(_) => EndSoftDoes(t, d);
    case ToHard(_) => ToHardDoes(t, d);
    case ToSoft(_) => ToSoftDoes(t, d);
    case Create(_) => CreateDoes(t, d);
  }

  /** The others still fit when a call has finished. */
  lemma FitsOn(
      c: SlotCall, o: SlotCall, life: seq<Life>, ending: seq<bool>, soft: seq<bool>, soft': seq<bool>)
    requires |life| == |ending| == |soft| == |soft'| == HW_THREADS && c.Valid() && o.Valid()
    requires Fits(c, life, ending, soft) && Fits(o, life, ending, soft)
    requires forall k :: 0 <= k < HW_THREADS && ending[k] ==> life[k] == Dead
    requires forall k :: 0 <= k < HW_THREADS && k != Target(c) ==> soft'[k] == soft[k]
    requires c.SetNum? || c.EndSoft? ==> soft' == soft
    requires c.Create? ==> !(o.Create? && o.tid == c.tid)
    ensures Fits(o, Committed(life, c), ending, soft')
  {
  }

  lemma FreeLockCalls(m: Marked, p: nat)
    requires Tidy(m) && p < |m.x.w.procs| && m.x.w.procs[p].Inside? && m.x.w.procs[p].todo == []
    ensures var m' := Step(m, FreeLock(p));
            && |Atomic(Base(m.x), FinishedCall(m.x.w.procs[p])).soft| == HW_THREADS
            && Calls(m'.x.w, m'.x.life, m.ending, Atomic(Base(m.x), FinishedCall(m.x.w.procs[p])).soft)
  {
    var d, m' := FinishedCall(m.x.w.procs[p]), Step(m, FreeLock(p));
    var soft, soft' := Base(m.x).soft, Atomic(Base(m.x), d).soft;
    AtomicSoft(Base(m.x), d);
    assert Fits(d.call, m.x.life, m.ending, soft);
    SameCalls(m.x.w, m'.x.w, p, m.x.life, m.ending, soft);
    forall i | 0 <= i < |m'.x.w.procs| && !m'.x.w.procs[i].Idle?
      ensures Fits(m'.x.w.procs[i].call, m'.x.life, m.ending, soft')
    {
      if d.call.Create? {
        assert Creating(m.x.w.procs[p], d.call.tid);
        assert !Creating(m.x.w.procs[i], d.call.tid);
      }
      FitsOn(d.call, m'.x.w.procs[i].call, m.x.life, m.ending, soft, soft');
    }
  }

  lemma FreeLockLives(m: Marked, p: nat)
    requires Tidy(m) && p < |m.x.w.procs| && m.x.w.procs[p].Inside? && m.x.w.procs[p].todo == []
    ensures Lives(Step(m, FreeLock(p)))
    ensures Step(m, FreeLock(p)).ended == EndedAfter(m.ended, m.x.w.procs[p].call)
  {
    assert Fits(m.x.w.procs[p].call, m.x.life, m.ending, Base(m.x).soft);
  }

  lemma FreeLockTidy(m: Marked, p: nat)
    requires Tidy(m) && p < |m.x.w.procs| && m.x.w.procs[p].Inside? && m.x.w.procs[p].todo == []
    ensures Tidy(Step(m, FreeLock(p)))
  {
    var d, m' := FinishedCall(m.x.w.procs[p]), Step(m, FreeLock(p));
    FreeLockLinear(m.x.w, m.x.init, p);
    FreeLockCalls(m, p);
    FreeLockLives(m, p);
    CallKeeps(Base(m.x), d, m.x.life, m.ending, m.ended);
    BaseGrows(m.x, m'.x, d);
  }

  lemma BaseGrows(x: Sys, x': Sys, d: Done)
    requires |x.init.soft| == HW_THREADS && GoodLog(x.w.log) && GoodLog(x'.w.log) && x'.init == x.init
    requires x'.w.log == x.w.log + [d]
    ensures |d.seen| == HW_THREADS && d.call.Valid() && Base(x') == Atomic(Base(x), d)
  {
    assert x'.w.log[|x.w.log|] == d && x'.w.log[..|x.w.log|] == x.w.log;
  }

  // -------------------------------------------------------------------------- the other events

  /** Where no priority call and no creation of k is under way its soft bit is the one the last finished
      call left. */
  lemma BitAtRest(m: Marked, k: nat)
    requires Tidy(m) && k < HW_THREADS && m.x.life[k] == Dead
    requires forall p :: 0 <= p < |m.x.w.procs| ==> !Prioritising(m.x.w.procs[p], k)
    ensures Base(m.x).soft[k] == Soft(m.x.w.modes[k])
  {
    if m.x.w.lock != -1 {
      var q := m.x.w.procs[m.x.w.lock];
      assert OwnBit(q, Base(m.x).soft, SoftBits(m.x.w.modes)) && Fits(q.call, m.x.life, m.ending, Base(m.x).soft);
    }
  }

  lemma AskCalls(m: Marked, p: nat, c: SlotCall)
    requires Tidy(m) && Asks(m.x.w, Ask(p, c)) && AskedInOrder(m, c)
    ensures var m' := Step(m, Ask(p, c)); Calls(m'.x.w, m.x.life, m'.ending, Base(m.x).soft)
  {
    var m' := Step(m, Ask(p, c));
    if c.SetNum? { BitAtRest(m, c.id); }
    assert Fits(c, m.x.life, m'.ending, Base(m.x).soft);
    forall i | 0 <= i < |m'.x.w.procs| && i != p && !m'.x.w.procs[i].Idle?
      ensures Fits(m'.x.w.procs[i].call, m.x.life, m'.ending, Base(m.x).soft)
    {
      assert m'.x.w.procs[i] == m.x.w.procs[i];
      if Ends(c) { assert !Prioritising(m.x.w.procs[i], Target(c)); }
    }
    forall i, j, k: nat | 0 <= i < j < |m'.x.w.procs| && Creating(m'.x.w.procs[i], k)
      ensures !Creating(m'.x.w.procs[j], k)
    {
      assert i != p ==> Creating(m.x.w.procs[i], k);
    }
  }

  lemma AskTidy(m: Marked, p: nat, c: SlotCall)
    requires Tidy(m) && Asks(m.x.w, Ask(p, c)) && AskedInOrder(m, c)
    ensures Tidy(Step(m, Ask(p, c)))
  {
    var m' := Step(m, Ask(p, c));
    FireLinear(m.x.w, m.x.init, Ask(p, c));
    AskCalls(m, p, c);
    assert Base(m'.x) == Base(m.x) && SlotRuns.Now(m'.x.w) == SlotRuns.Now(m.x.w);
  }

  /** Nobody's end is undone or forgotten. */
  predicate SameUnended(life: seq<Life>, life': seq<Life>, ended: seq<bool>)
    requires |life| == |life'| == |ended| == HW_THREADS
  {
    forall k :: 0 <= k < HW_THREADS ==> Unended(life', ended, k) == Unended(life, ended, k)
  }

  lemma LifeKept(t: Table, life: seq<Life>, life': seq<Life>, ended: seq<bool>)
    requires |t.soft| == |life| == |life'| == |ended| == HW_THREADS && SameUnended(life, life', ended)
    requires Kept(t, life, ended)
    ensures Kept(t, life', ended)
  {
    if k :| Unended(life, ended, k) && t.soft[k] { assert Unended(life', ended, k); }
    forall c: nat | c != SLOT_S && c != SLOT_D && Count(t.slots, c) > 0 ensures Unended(life', ended, c) && !t.soft[c] {
      assert Unended(life, ended, c);
    }
  }

  lemma LifeCounting(q: Proc, life: seq<Life>, life': seq<Life>, ended: seq<bool>, base: Table, now: Table)
    requires q.Inside? && q.call.Valid() && Sane(q.local)
    requires |life| == |life'| == |ended| == |base.soft| == HW_THREADS && SameUnended(life, life', ended)
    requires Counting(q, life, ended, base, now)
    ensures Counting(q, life', ended, base, now)
  {
  }

  lemma LifeLives(m: Marked, tid: nat, alive: bool)
    requires Tidy(m) && tid < HW_THREADS && Orderly(m, FuncWrite(tid, alive))
    ensures var m' := Step(m, FuncWrite(tid, alive)); SameUnended(m.x.life, m'.x.life, m.ended) && Lives(m')
  {
  }

  lemma LifeCalls(m: Marked, tid: nat, alive: bool)
    requires Tidy(m) && tid < HW_THREADS && Orderly(m, FuncWrite(tid, alive))
    ensures var m' := Step(m, FuncWrite(tid, alive)); Calls(m'.x.w, m'.x.life, m.ending, Base(m.x).soft)
  {
    var m', soft := Step(m, FuncWrite(tid, alive)), Base(m.x).soft;
    assert m'.x.w.procs == m.x.w.procs;
    forall p | 0 <= p < |m.x.w.procs| && !m.x.w.procs[p].Idle?
      ensures Fits(m.x.w.procs[p].call, m'.x.life, m.ending, soft)
    {
      LifeFits(m.x.w.procs[p].call, m.x.life, m'.x.life, tid, m.ending, soft);
    }
  }

  lemma LifeFits(c: SlotCall, life: seq<Life>, life': seq<Life>, tid: nat, ending: seq<bool>, soft: seq<bool>)
    requires |life| == |life'| == |ending| == |soft| == HW_THREADS && c.Valid() && tid < HW_THREADS
    requires Fits(c, life, ending, soft)
    requires life' == life[tid := if life[tid] == Unborn then Half else Dead]
    requires life[tid] != Half
    ensures Fits(c, life', ending, soft)
  {
  }

  /** A life that moves on, without ending before it has begun, changes nothing. */
  lemma LifeTidy(m: Marked, tid: nat, alive: bool)
    requires Tidy(m) && tid < HW_THREADS && Orderly(m, FuncWrite(tid, alive))
    ensures Tidy(Step(m, FuncWrite(tid, alive)))
  {
    var m' := Step(m, FuncWrite(tid, alive));
    FireLinear(m.x.w, m.x.init, FuncWrite(tid, alive));
    assert Base(m'.x) == Base(m.x) && SlotRuns.Now(m'.x.w) == SlotRuns.Now(m.x.w);
    LifeLives(m, tid, alive);
    LifeCalls(m, tid, alive);
    LifeKept(Base(m.x), m.x.life, m'.x.life, m.ended);
    forall p | 0 <= p < |m.x.w.procs| && m.x.w.procs[p].Inside?
      ensures Counting(m.x.w.procs[p], m'.x.life, m.ended, Base(m.x), SlotRuns.Now(m.x.w))
    {
      LifeCounting(m.x.w.procs[p], m.x.life, m'.x.life, m.ended, Base(m.x), SlotRuns.Now(m.x.w));
    }
  }

  lemma QuietTidy(m: Marked, e: Event)
    requires Tidy(m) && Orderly(m, e) && (e.ZombieBit? || e.PriorityWrite?)
    ensures Tidy(Step(m, e))
  {
    var m' := Step(m, e);
    FireLinear(m.x.w, m.x.init, e);
    if e.ZombieBit? && e.tid < HW_THREADS { ZombieKeepsSoftBits(m.x.w.modes, e.tid, e.on); }
    assert Base(m'.x) == Base(m.x) && SlotRuns.Now(m'.x.w) == SlotRuns.Now(m.x.w);
  }

  /** Every orderly event keeps the invariant. */
  lemma StepTidy(m: Marked, e: Event)
    requires Tidy(m) && Orderly(m, e)
    ensures Tidy(Step(m, e))
  {
    match e
    case TakeLock(p) =>
      if p < |m.x.w.procs| && m.x.w.procs[p].Wanting? && m.x.w.lock == -1 {
        TakeLockTidy(m, p);
      } else {
        assert Step(m, e) == m;
      }
    case Access(p) =>
      if p < |m.x.w.procs| && m.x.w.procs[p].Inside? && m.x.w.procs[p].todo != [] {
        AccessTidy(m, p);
      } else {
        assert Step(m, e) == m;
      }
    case FreeLock(p) => if Finishes(m.x.w, e) { FreeLockTidy(m, p); } else { assert Step(m, e) == m; }
    case Ask(p, c) => if Asks(m.x.w, e) { AskTidy(m, p, c); } else { assert Step(m, e) == m; }
    case FuncWrite(tid, alive) => if tid < HW_THREADS { LifeTidy(m, tid, alive); } else { assert Step(m, e) == m; }
    case ZombieBit(_, _) => QuietTidy(m, e);
    case PriorityWrite(_, _) => QuietTidy(m, e);
  }

  // ------------------------------------------------------------------------------------- runs

  function After(m: Marked, es: seq<Event>): (r: Marked)
    requires Shaped(m)
    ensures Shaped(r)
    decreases |es|
  {
    if es == [] then m else After(Step(m, es[0]), es[1..])
  }

  ghost predicate AllOrderly(m: Marked, es: seq<Event>)
    requires Shaped(m)
    decreases |es|
  {
    es == [] || (Orderly(m, es[0]) && AllOrderly(Step(m, es[0]), es[1..]))
  }

  lemma {:induction false} RunTidy(m: Marked, es: seq<Event>)
    requires Tidy(m) && AllOrderly(m, es)
    ensures Tidy(After(m, es))
    decreases |es|
  {
    if es != [] {
      StepTidy(m, es[0]);
      RunTidy(Step(m, es[0]), es[1..]);
    }
  }

  /** The machine over what osKernelStart left. */
  function FromStart(os: Os, n: nat): (m: Marked)
    requires os.Shape()
    ensures Shaped(m)
  {
    Marked(SlotRuns.Started(OsKernelStart(os), n), KernelRuns.EndedBefore(os), KernelRuns.EndedBefore(os))
  }

  lemma StartKept(os: Os, n: nat)
    requires KernelRuns.BeforeStart(os)
    ensures var m := FromStart(os, n); Kept(Base(m.x), m.x.life, m.ended)
  {
    var m, r := FromStart(os, n), KernelRuns.Started(os);
    var t := Base(m.x);
    KernelLeaks.StartLeaksNothing(os);
    forall c: nat | c != SLOT_S && c != SLOT_D && Count(t.slots, c) > 0
      ensures Unended(m.x.life, m.ended, c) && !t.soft[c]
    {
      CountZero(t.slots, c);
      assert c < r.os.num && !Soft(r.os.modes[c]) && !r.ended[c];
    }
    if Count(t.slots, SLOT_S) > 0 {
      var k :| KernelLeaks.UnendedSoft(r, k);
      assert Unended(m.x.life, m.ended, k) && t.soft[k];
    }
  }

  lemma StartTidy(os: Os, n: nat)
    requires KernelRuns.BeforeStart(os)
    ensures Tidy(FromStart(os, n))
  {
    var m, r := FromStart(os, n), KernelRuns.Started(os);
    KernelRuns.StartConserves(os);
    StartKept(os, n);
    forall k | 0 <= k < HW_THREADS && m.x.life[k] != Unborn ensures Supported(m.x.w.priority[k]) {
      assert KernelRuns.Agrees(r, k);
    }
  }

  /** From osKernelStart, over every interleaving of orderly events, room or no room: whenever slot_mutex is
      free a slot belongs only to a hard thread that no terminate or join has finished with, and a SOFT slot
      stands only beside a soft one. */
  lemma NothingLeaksInterleaved(os: Os, n: nat, es: seq<Event>)
    requires KernelRuns.BeforeStart(os) && AllOrderly(FromStart(os, n), es)
    ensures var m := After(FromStart(os, n), es);
            m.x.w.lock == -1 ==> Kept(SlotRuns.Now(m.x.w), m.x.life, m.ended)
  {
    StartTidy(os, n);
    RunTidy(FromStart(os, n), es);
    var m := After(FromStart(os, n), es);
    assert Tidy(m);
  }

  ghost predicate OthersGone(m: Marked)
    requires Shaped(m)
  {
    !Soft(m.x.w.modes[0]) && forall k :: 0 < k < HW_THREADS ==> m.x.life[k] == Unborn || m.ended[k]
  }

  lemma ReturnedFrom(slots: Slots, soft: seq<bool>, life: seq<Life>, ended: seq<bool>)
    requires |soft| == |life| == |ended| == HW_THREADS && Kept(Table(slots, soft), life, ended) && !soft[0]
    requires forall k :: 0 < k < HW_THREADS ==> !Unended(life, ended, k)
    ensures forall i :: 0 <= i < HW_THREADS ==> slots[i] == 0 || slots[i] == SLOT_D
  {
    forall i | 0 <= i < HW_THREADS ensures slots[i] == 0 || slots[i] == SLOT_D {
      KernelRuns.CountFrom(slots, slots[i], i);
    }
  }

  /** So once every thread but thread 0 has ended or never begun, each slot is disabled or thread 0's. */
  lemma SlotsReturnedInterleaved(os: Os, n: nat, es: seq<Event>)
    requires KernelRuns.BeforeStart(os) && AllOrderly(FromStart(os, n), es)
    ensures var m := After(FromStart(os, n), es);
            m.x.w.lock == -1 && OthersGone(m) ==>
              forall i :: 0 <= i < HW_THREADS ==> m.x.w.slots[i] == 0 || m.x.w.slots[i] == SLOT_D
  {
    StartTidy(os, n);
    RunTidy(FromStart(os, n), es);
    var m := After(FromStart(os, n), es);
    assert Tidy(m) && Lives(m);
    if m.x.w.lock == -1 && OthersGone(m) {
      ReturnedFrom(m.x.w.slots, SoftBits(m.x.w.modes), m.x.life, m.ended);
    }
  }
}
