/** What a run of calls leaves: the slots after each call counted out, who sleeps and who lives told by the
    last call that says so, and joins that end what an exit began. */
module KernelHistory {
  import opened Registers
  import opened SlotTable
  import opened KernelSpec
  import opened KernelTables
  import opened KernelRuns
  import opened History

  // ---------- the slots after one call ----------

  lemma CreatedSlots(os: Os, tid: nat)
    requires os.Shape() && tid < HW_THREADS && (os.priority[tid] == REALTIME || os.priority[tid] == NORMAL)
    ensures var s := ThreadAfterCreate(os, tid).slots;
            var own, soft, room := Count(os.slots, tid), Count(os.slots, SLOT_S), Count(os.slots, SLOT_D) >= 2;
            && Moves(os.slots, s, tid)
            && (os.priority[tid] == REALTIME ==>
                  Count(s, tid) == (if own == 0 && !room then 0 else 1) && Count(s, SLOT_S) == soft)
            && (os.priority[tid] == NORMAL ==>
                  && Count(s, tid) == own
                  && Count(s, SLOT_S) == (if os.func[tid] && soft != 0 then soft
                                          else if soft == 0 && !room then 0 else 1))
  {
    SlotNum(os.slots, tid, 1);
    SlotNum(os.slots, SLOT_S, 1);
  }

  /** The thread ends as a soft one: by its priority, and by its mode if that is neither of the two. */
  predicate EndsSoft(os: Os, tid: nat)
    requires os.Shape() && tid < HW_THREADS
  {
    os.priority[tid] == NORMAL || (os.priority[tid] != REALTIME && Soft(os.modes[tid]))
  }

  ghost predicate ClosedSlots(os: Os, s: Slots, tid: nat)
    requires os.Shape() && tid < HW_THREADS
  {
    && Count(s, tid) == 0
    && Count(s, SLOT_S) == (if EndsSoft(os, tid) && !os.OtherLiveSoft(tid) then 0 else Count(os.slots, SLOT_S))
  }

  ghost predicate HardSlots(os: Os, s: Slots, tid: nat)
    requires os.Shape() && tid < HW_THREADS
  {
    && Count(s, tid) == (if Count(os.slots, tid) == 0 && Count(os.slots, SLOT_D) >= 2 then 1 else Count(os.slots, tid))
    && Count(s, SLOT_S) == (if os.OtherLiveSoft(tid) then Count(os.slots, SLOT_S) else 0)
  }

  ghost predicate SoftSlots(os: Os, s: Slots, tid: nat)
    requires os.Shape() && tid < HW_THREADS
  {
    && Count(s, tid) == 0
    && Count(s, SLOT_S) == (if !os.OtherLiveSoft(tid) && Count(os.slots, SLOT_S) == 0 && Count(os.slots, SLOT_D) >= 2
                            then 1 else Count(os.slots, SLOT_S))
  }

  predicate NewSlots(was: Slots, s: Slots, tid: nat, hard: bool) {
    var own, soft, room := Count(was, tid), Count(was, SLOT_S), Count(was, SLOT_D) >= 2;
    if hard then Count(s, tid) == (if own == 0 && !room then 0 else 1) && Count(s, SLOT_S) == soft
    else Count(s, tid) == own && Count(s, SLOT_S) == (if soft == 0 && room then 1 else soft)
  }

  /** Any call changes only slots of the thread it names or creates, SOFT slots and disabled ones, and only
      into one another; so many of the thread's own and of the SOFT slots it leaves. */
  lemma SlotsExactly(os: Os, c: Call, tid: nat)
    requires os.Shape() && Valid(os, c) && (if c.New? then tid == os.num else tid == c.tid)
    ensures var s := Apply(os, c).slots;
            && Moves(os.slots, s, tid)
            && (if c.New? && Accepts(os, c.attr) && os.running then
                  NewSlots(os.slots, s, tid, c.attr.Attr? && c.attr.priority == REALTIME)
                else if !c.New? && Closes(os, c) then ClosedSlots(os, s, tid)
                else if !c.New? && Reprioritises(os, c) && c.priority == REALTIME then HardSlots(os, s, tid)
                else if !c.New? && Reprioritises(os, c) then SoftSlots(os, s, tid)
                else s == os.slots)
  {
    if c.New? {
      if Accepts(os, c.attr) && os.running { CreatedSlots(WithThread(os, c.attr), tid); }
    } else if Closes(os, c) {
      var os1 := os.(func := os.func[tid := false]);
      if !c.Terminate? { assert os1.func == os.func; }
      TerminateEffect(os1, tid);
      SameOthers(os, os1, tid);
    } else if Reprioritises(os, c) {
      HardEffect(os, tid);
      SoftEffect(os, tid);
    }
  }

  /** A thread's own end does not count among the others. */
  lemma SameOthers(os: Os, os1: Os, tid: nat)
    requires os.Shape() && tid < HW_THREADS && os1 == os.(func := os.func[tid := false])
    ensures os1.OtherLiveSoft(tid) <==> os.OtherLiveSoft(tid)
  {
    if i :| 0 <= i < HW_THREADS && i != tid && os.LiveSoft(i) { assert os1.LiveSoft(i); }
    if i :| 0 <= i < HW_THREADS && i != tid && os1.LiveSoft(i) { assert os.LiveSoft(i); }
  }

  // ---------- who sleeps and who lives ----------

  /** What the call says about thread i's sleep. */
  function SleepWrite(os: Os, c: Call, i: nat): Write<bool>
    requires os.Shape() && Valid(os, c)
  {
    if Creates(os, c, i) then Put(false)
    else if !Names(c, i) then Keep
    else if c.Suspend? || Closes(os, c) then Put(true)
    else if c.Resume? then Put(false)
    else Keep
  }

  /** What it says about its life. */
  function LifeWrite(os: Os, c: Call, i: nat): Write<bool>
    requires os.Shape() && Valid(os, c)
  {
    if Creates(os, c, i) then Put(true)
    else if Names(c, i) && (c.Exit? || c.Terminate?) then Put(false)
    else Keep
  }

  ghost function SleepWrites(r: Run, cs: seq<Call>, i: nat): seq<Write<bool>>
    requires Conserved(r) && Runs(r, cs)
    decreases |cs|
  {
    if cs == [] then []
    else StepConserves(r, cs[0]); [SleepWrite(r.os, cs[0], i)] + SleepWrites(Step(r, cs[0]), cs[1..], i)
  }

  ghost function LifeWrites(r: Run, cs: seq<Call>, i: nat): seq<Write<bool>>
    requires Conserved(r) && Runs(r, cs)
    decreases |cs|
  {
    if cs == [] then []
    else StepConserves(r, cs[0]); [LifeWrite(r.os, cs[0], i)] + LifeWrites(Step(r, cs[0]), cs[1..], i)
  }

  lemma {:induction false} RunSleepers(r: Run, cs: seq<Call>, i: nat)
    requires Conserved(r) && Runs(r, cs) && i < HW_THREADS
    ensures Zombie(After(r, cs).os.modes[i]) == Last(Zombie(r.os.modes[i]), SleepWrites(r, cs, i))
    decreases |cs|
  {
    if cs != [] {
      StepConserves(r, cs[0]);
      SleepersExactly(r, cs[0], i);
      RunSleepers(Step(r, cs[0]), cs[1..], i);
      LastFirst(Zombie(r.os.modes[i]), SleepWrite(r.os, cs[0], i), SleepWrites(Step(r, cs[0]), cs[1..], i));
    }
  }

  lemma {:induction false} RunLives(r: Run, cs: seq<Call>, i: nat)
    requires Conserved(r) && Runs(r, cs) && i < HW_THREADS
    ensures After(r, cs).os.func[i] == Last(r.os.func[i], LifeWrites(r, cs, i))
    decreases |cs|
  {
    if cs != [] {
      StepConserves(r, cs[0]);
      LivesExactly(r.os, cs[0], i);
      RunLives(Step(r, cs[0]), cs[1..], i);
      LastFirst(r.os.func[i], LifeWrite(r.os, cs[0], i), LifeWrites(Step(r, cs[0]), cs[1..], i));
    }
  }

  /** From osKernelStart on a thread sleeps exactly if the last call to say so was a suspend of it, a join of
      it that found it ended, or a terminate, and not a resume or its creation; or if there was none and it
      did not live at the start. */
  lemma AsleepExactly(os: Os, cs: seq<Call>, i: nat)
    requires BeforeStart(os) && Runs(FromStart(os), cs) && i < HW_THREADS
    ensures Zombie(After(FromStart(os), cs).os.modes[i])
            == Last(i != 0 && !os.func[i], SleepWrites(FromStart(os), cs, i))
  {
    StartModesExactly(os, i);
    RunSleepers(FromStart(os), cs, i);
  }

  /** It lives exactly if the last such call created it, and neither let it exit nor terminated it; or if
      there was none and it lived at the start. */
  lemma AliveExactly(os: Os, cs: seq<Call>, i: nat)
    requires BeforeStart(os) && Runs(FromStart(os), cs) && i < HW_THREADS
    ensures After(FromStart(os), cs).os.func[i] == Last(os.func[i], LifeWrites(FromStart(os), cs, i))
  {
    RunLives(FromStart(os), cs, i);
  }

  // ---------- joins ----------

  /** Nobody is called back to life, and a thread stays joinable or not. */
  lemma {:induction false} StaysEnded(r: Run, cs: seq<Call>, t: nat)
    requires Conserved(r) && Runs(r, cs) && t < r.os.num && !r.os.func[t]
    ensures var os := After(r, cs).os; t < os.num && !os.func[t] && os.joinable[t] == r.os.joinable[t]
    decreases |cs|
  {
    if cs != [] {
      StepConserves(r, cs[0]);
      LivesExactly(r.os, cs[0], t);
      AttributesExactly(r.os, cs[0], t);
      StaysEnded(Step(r, cs[0]), cs[1..], t);
    }
  }

  /** A join of a detached or a running thread leaves everything as it is; any other one closes the thread. */
  lemma JoinExactly(r: Run, t: nat)
    requires Conserved(r) && t < r.os.num
    ensures var r' := Step(r, Join(t));
            if r.os.joinable[t] && !r.os.func[t]
            then r'.closed[t] && r'.ended[t] && Zombie(r'.os.modes[t]) && Count(r'.os.slots, t) == 0
            else r' == r
  {
    if r.os.joinable[t] && !r.os.func[t] {
      SlotsExactly(r.os, Join(t), t);
      SleepersExactly(r, Join(t), t);
    }
  }

  lemma ExitEnds(r: Run, t: nat)
    requires Conserved(r) && t < r.os.num
    ensures var r0 := Step(r, Exit(t));
            && Conserved(r0) && t < r0.os.num && !r0.os.func[t] && r0.os.joinable == r.os.joinable
  {
    StepConserves(r, Exit(t));
  }

  lemma JoinCloses(r: Run, t: nat)
    requires Conserved(r) && t < r.os.num && r.os.joinable[t] && !r.os.func[t]
    ensures var r' := Step(r, Join(t));
            && Conserved(r') && !r'.os.func[t] && r'.closed[t] && r'.ended[t]
            && Zombie(r'.os.modes[t]) && Count(r'.os.slots, t) == 0
  {
    JoinExactly(r, t);
    StepConserves(r, Join(t));
  }

  /** A joinable thread exits, and then anything happens: its next join closes it, puts it to sleep and takes
      back its slots. A join before its exit, however it is timed, waits. */
  lemma JoinAfterExit(r: Run, t: nat, cs: seq<Call>)
    requires Conserved(r) && t < r.os.num && r.os.func[t] && r.os.joinable[t]
    ensures Step(r, Join(t)) == r
    ensures Conserved(Step(r, Exit(t)))
    ensures Runs(Step(r, Exit(t)), cs) ==>
              var r1 := After(Step(r, Exit(t)), cs);
              && Valid(r1.os, Join(t))
              && var r2 := Step(r1, Join(t));
                 && Conserved(r2) && !r2.os.func[t] && r2.closed[t] && r2.ended[t]
                 && Zombie(r2.os.modes[t]) && Count(r2.os.slots, t) == 0
  {
    ExitEnds(r, t);
    var r0 := Step(r, Exit(t));
    if Runs(r0, cs) {
      StaysEnded(r0, cs, t);
      JoinCloses(After(r0, cs), t);
    }
  }
}
