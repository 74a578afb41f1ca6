/** Which calls leave a slot with a thread that has been joined or terminated: osThreadSetPriority does not
    ask whether its thread still lives. The exact condition for one call and over runs, two runs that
    come to it, and what is given back in every run without such a call. */
module KernelLeaks {
  import opened Registers
  import opened SlotTable
  import opened KernelSpec
  import opened KernelTables
  import opened KernelRuns

  ghost predicate UnendedSoft(r: Run, i: int)
    requires r.os.Shape() && |r.ended| == HW_THREADS
  {
    0 <= i < r.os.num && Soft(r.os.modes[i]) && !r.ended[i]
  }

  ghost predicate AnyUnendedSoft(r: Run)
    requires r.os.Shape() && |r.ended| == HW_THREADS
  {
    exists i :: UnendedSoft(r, i)
  }

  /** No slot belongs to a thread that was ever joined or terminated, and there is no SOFT slot without a
      soft thread that was not. */
  ghost predicate LeakFree(r: Run)
    requires r.os.Shape() && |r.ended| == HW_THREADS
  {
    && (forall i :: 0 <= i < HW_THREADS && r.ended[i] ==> Count(r.os.slots, i) == 0)
    && (Count(r.os.slots, SLOT_S) > 0 ==> AnyUnendedSoft(r))
  }

  /** The call gives an ended thread a priority and finds a slot for it: its own if it is made hard, the
      SOFT slot if it is made soft while every soft thread has ended. */
  ghost predicate Revives(r: Run, c: Call)
    requires r.os.Shape() && |r.ended| == HW_THREADS && Valid(r.os, c)
  {
    Reprioritises(r.os, c) && r.ended[c.tid] && Count(r.os.slots, SLOT_D) >= 2
    && (c.priority == NORMAL ==> !AnyUnendedSoft(r))
  }

  /** If tid alone changed and the SOFT slots are accounted for, only tid's own slots are in question. */
  lemma LeakFreeAfter(r: Run, r': Run, tid: nat)
    requires Conserved(r) && LeakFree(r) && r'.os.Shape() && OnlyThread(r, r', tid)
    requires Moves(r.os.slots, r'.os.slots, tid)
    requires Count(r'.os.slots, SLOT_S) > 0 ==> AnyUnendedSoft(r')
    ensures LeakFree(r') <==> (r'.ended[tid] ==> Count(r'.os.slots, tid) == 0)
  {
  }

  /** Some other soft thread is alive, so it has not ended. */
  lemma LiveIsUnended(r: Run, r': Run, os: Os, tid: nat)
    requires Conserved(r) && r'.os.Shape() && OnlyThread(r, r', tid)
    requires os.Shape() && os.modes == r.os.modes && (forall i :: 0 <= i < HW_THREADS && os.func[i] ==> r.os.func[i])
    requires os.OtherLiveSoft(tid)
    ensures AnyUnendedSoft(r')
  {
    var j :| 0 <= j < HW_THREADS && j != tid && os.LiveSoft(j);
    assert UnendedSoft(r', j);
  }

  /** The SOFT slots that a termination leaves stand beside a soft thread that has not ended. */
  lemma CloseKeepsWitness(r: Run, r': Run, os: Os, tid: nat)
    requires Conserved(r) && LeakFree(r) && tid < r.os.num && r'.os.Shape() && OnlyThread(r, r', tid)
    requires os == r.os.(func := r.os.func[tid := false]) && r'.os.slots == ThreadTerminate(os, tid).slots
    ensures Count(r'.os.slots, SLOT_S) > 0 ==> AnyUnendedSoft(r')
  {
    TerminateEffect(os, tid);
    assert Agrees(r, tid);
    if Count(r'.os.slots, SLOT_S) > 0 {
      if os.OtherLiveSoft(tid) {
        LiveIsUnended(r, r', os, tid);
      } else {
        var i :| UnendedSoft(r, i);
        assert i != tid && UnendedSoft(r', i);
      }
    }
  }

  lemma CloseLeaksNothing(r: Run, c: Call)
    requires Conserved(r) && LeakFree(r) && Valid(r.os, c) && Closes(r.os, c)
    ensures LeakFree(Step(r, c))
  {
    var os, r', tid := r.os.(func := r.os.func[c.tid := false]), Step(r, c), c.tid;
    ClosesTo(r, c);
    TerminateEffect(os, tid);
    CloseKeepsWitness(r, r', os, tid);
    LeakFreeAfter(r, r', tid);
  }

  lemma PromotionLeaks(r: Run, c: Call)
    requires Conserved(r) && LeakFree(r) && Valid(r.os, c) && Reprioritises(r.os, c) && c.priority == REALTIME
    ensures LeakFree(Step(r, c)) <==> !Revives(r, c)
  {
    var r' := Step(r, c);
    PrioritisesTo(r, c);
    HardEffect(r.os, c.tid);
    assert Agrees(r, c.tid);
    if Count(r'.os.slots, SLOT_S) > 0 { LiveIsUnended(r, r', r.os, c.tid); }
    LeakFreeAfter(r, r', c.tid);
  }

  lemma DemotionLeaks(r: Run, c: Call)
    requires Conserved(r) && LeakFree(r) && Valid(r.os, c) && Reprioritises(r.os, c) && c.priority == NORMAL
    ensures LeakFree(Step(r, c)) <==> !Revives(r, c)
  {
    var r', tid := Step(r, c), c.tid;
    PrioritisesTo(r, c);
    SoftEffect(r.os, tid);
    assert !r.ended[tid] ==> UnendedSoft(r', tid);
    if i :| UnendedSoft(r, i) { assert UnendedSoft(r', i); }
    if i :| UnendedSoft(r', i) { assert i != tid ==> UnendedSoft(r, i); }
    if r.os.OtherLiveSoft(tid) { LiveIsUnended(r, r', r.os, tid); }
    if Count(r'.os.slots, SLOT_S) > 0 ==> AnyUnendedSoft(r') { LeakFreeAfter(r, r', tid); }
  }

  lemma NewLeaksNothing(r: Run, c: Call)
    requires Conserved(r) && LeakFree(r) && Valid(r.os, c) && c.New?
    ensures LeakFree(Step(r, c))
  {
    var os, r' := r.os, Step(r, c);
    NewTo(r, c);
    if Accepts(os, c.attr) {
      CreateEffect(WithThread(os, c.attr), os.num);
      if Soft(r'.os.modes[os.num]) { assert UnendedSoft(r', os.num); }
      if i :| UnendedSoft(r, i) { assert UnendedSoft(r', i); }
      LeakFreeAfter(r, r', os.num);
    }
  }

  lemma QuietLeaksNothing(r: Run, c: Call)
    requires Conserved(r) && LeakFree(r) && Valid(r.os, c) && Quiet(r.os, c)
    ensures LeakFree(Step(r, c))
  {
    var r' := Step(r, c);
    QuietTo(r, c);
    if i :| UnendedSoft(r, i) { assert UnendedSoft(r', i); }
  }

  /** Exactly when a call leaves a slot with an ended thread, or a SOFT slot with ended soft threads only. */
  lemma StepLeaksExactly(r: Run, c: Call)
    requires Conserved(r) && LeakFree(r) && Valid(r.os, c)
    ensures LeakFree(Step(r, c)) <==> !Revives(r, c)
  {
    if c.New? {
      NewLeaksNothing(r, c);
    } else if Reprioritises(r.os, c) {
      if c.priority == REALTIME { PromotionLeaks(r, c); } else { DemotionLeaks(r, c); }
    } else if Closes(r.os, c) {
      CloseLeaksNothing(r, c);
    } else {
      QuietLeaksNothing(r, c);
    }
  }

  lemma StartLeaksNothing(os: Os)
    requires BeforeStart(os)
    ensures Conserved(Started(os)) && LeakFree(Started(os))
  {
    var r := Started(os);
    StartConserves(os);
    if i :| OpenSoft(r, i) { assert UnendedSoft(r, i); }
  }

  // ---------------------------------------------------------------------------------------- runs

  ghost predicate NeverRevives(r: Run, cs: seq<Call>)
    requires Conserved(r) && Runs(r, cs)
    decreases |cs|
  {
    cs == [] || (!Revives(r, cs[0]) && (StepConserves(r, cs[0]); NeverRevives(Step(r, cs[0]), cs[1..])))
  }

  /** After every call of the run nothing has leaked. */
  ghost predicate LeakFreeThroughout(r: Run, cs: seq<Call>)
    requires Conserved(r) && Runs(r, cs)
    decreases |cs|
  {
    LeakFree(r) && (cs != [] ==> (StepConserves(r, cs[0]); LeakFreeThroughout(Step(r, cs[0]), cs[1..])))
  }

  /** A run leaks nothing at any time exactly when none of its calls revives an ended thread. */
  lemma {:induction false} RunLeaksExactly(r: Run, cs: seq<Call>)
    requires Conserved(r) && LeakFree(r) && Runs(r, cs)
    ensures LeakFreeThroughout(r, cs) <==> NeverRevives(r, cs)
    ensures NeverRevives(r, cs) ==> LeakFree(After(r, cs))
    decreases |cs|
  {
    if cs != [] {
      var r1 := Step(r, cs[0]);
      StepConserves(r, cs[0]);
      StepLeaksExactly(r, cs[0]);
      if LeakFree(r1) { RunLeaksExactly(r1, cs[1..]); } else { assert !LeakFreeThroughout(r1, cs[1..]); }
    }
  }

  ghost predicate AllEnded(r: Run)
    requires r.os.Shape() && |r.ended| == HW_THREADS
  {
    forall i :: 0 < i < r.os.num ==> r.ended[i]
  }

  /** Once every thread but thread 0 has ended, each slot is disabled or thread 0's exactly when nothing
      has leaked. */
  lemma SlotsReturnedExactly(r: Run)
    requires Conserved(r) && !Soft(r.os.modes[0]) && !r.ended[0] && AllEnded(r)
    ensures (forall k :: 0 <= k < HW_THREADS ==> r.os.slots[k] == 0 || r.os.slots[k] == SLOT_D) <==> LeakFree(r)
  {
    if LeakFree(r) {
      forall k | 0 <= k < HW_THREADS ensures r.os.slots[k] == 0 || r.os.slots[k] == SLOT_D {
        CountFrom(r.os.slots, r.os.slots[k], k);
      }
    }
    if forall k :: 0 <= k < HW_THREADS ==> r.os.slots[k] == 0 || r.os.slots[k] == SLOT_D {
      forall x | x != 0 && x != SLOT_D ensures Count(r.os.slots, x) == 0 { CountZero(r.os.slots, x); }
    }
  }

  lemma {:induction false} ZeroUnended(r: Run, cs: seq<Call>)
    requires Conserved(r) && Runs(r, cs) && forall i :: 0 <= i < |cs| ==> !Names(cs[i], 0)
    ensures After(r, cs).ended[0] == r.ended[0]
    decreases |cs|
  {
    if cs != [] {
      StepConserves(r, cs[0]);
      ZeroUnended(Step(r, cs[0]), cs[1..]);
    }
  }

  /** Slot conservation: from any start, over any calls that leave thread 0 alone and revive nobody, once
      every other thread has ended the slots are back at their reset values. */
  lemma SlotConservation(os: Os, cs: seq<Call>)
    requires BeforeStart(os) && Runs(FromStart(os), cs) && NeverRevives(FromStart(os), cs)
    requires forall i :: 0 <= i < |cs| ==> !Names(cs[i], 0)
    requires AllEnded(After(FromStart(os), cs))
    ensures After(FromStart(os), cs).os.slots == ResetSlots()
  {
    var r := FromStart(os);
    StartLeaksNothing(os);
    RunLeaksExactly(r, cs);
    StartHoldsZero(os);
    RunKeepsThreadZero(r, cs);
    ZeroUnended(r, cs);
    SlotsReturnedExactly(After(r, cs));
    BackToReset(After(r, cs).os.slots);
  }

  // ------------------------------------------------------------------------- two runs that leak

  /** Terminate thread 1 and then give it the other priority. */
  function Afterlife(priority: int): seq<Call> {
    [Terminate(1), SetPriority(1, priority)]
  }

  lemma TwoSteps(r: Run, c: Call, d: Call)
    requires Conserved(r) && Valid(r.os, c) && Valid(Step(r, c).os, d)
    ensures Runs(r, [c, d]) && After(r, [c, d]) == Step(Step(r, c), d)
  {
    StepConserves(r, c);
    StepConserves(Step(r, c), d);
    assert [c, d][1..] == [d] && [d][1..] == [];
    assert Runs(Step(r, c), [d]);
    assert After(Step(r, c), [d]) == Step(Step(r, c), d);
  }

  lemma ManyDisabled(s: Slots)
    requires s[6] == SLOT_D && s[7] == SLOT_D
    ensures Count(s, SLOT_D) >= 2
  {
    CountSplit(s[..6], s[6..], SLOT_D);
    assert s == s[..6] + s[6..] && s[6..] == [SLOT_D, SLOT_D];
  }

  /** One thread besides thread 0: after the start and its termination two slots are disabled. */
  lemma AloneAndEnded(os: Os)
    requires BeforeStart(os) && os.num == 2 && os.softId == -1 && os.func[1]
    ensures var r := Step(FromStart(os), Terminate(1));
            && Conserved(r) && LeakFree(r) && Count(r.os.slots, SLOT_D) >= 2 && r.ended[1] && r.os.num == 2
            && !r.os.func[1] && r.os.priority == os.priority && r.os.modes[0] == TMODE_HA
            && Soft(r.os.modes[1]) == (os.priority[1] == NORMAL)
  {
    var r := FromStart(os);
    StartLeaksNothing(os);
    StartHoldsZero(os);
    StepConserves(r, Terminate(1));
    StepLeaksExactly(r, Terminate(1));
    ManyDisabled(r.os.slots);
    ClosesTo(r, Terminate(1));
    EndingFrees(r.os.(func := r.os.func[1 := false]), 1);
  }

  lemma EndingFrees(os: Os, tid: nat)
    requires os.Shape() && tid < HW_THREADS
    ensures Count(ThreadTerminate(os, tid).slots, SLOT_D) >= Count(os.slots, SLOT_D)
    ensures Soft(ThreadTerminate(os, tid).modes[tid]) == Soft(os.modes[tid])
  {
    SlotNum(os.slots, tid, 0);
    SlotNum(WithSlotNum(os.slots, tid, 0), SLOT_S, 0);
  }

  /** Reset, osThreadNew with no attributes, start, terminate, osPriorityRealtime: the dead thread has a slot. */
  lemma DeadThreadHoldsSlot(os: Os, prios: seq<int>, joins: seq<bool>)
    requires os.Shape() && |prios| == |joins| == HW_THREADS
    ensures var os1 := Prepared(OsKernelReset(os, prios, joins), [New(None)]);
            && BeforeStart(os1) && Runs(FromStart(os1), Afterlife(REALTIME))
            && var r := After(FromStart(os1), Afterlife(REALTIME));
               r.ended[1] && !r.os.func[1] && Count(r.os.slots, 1) > 0
  {
    OneThread(OsKernelReset(os, prios, joins), None);
    var os1 := OsThreadNew(OsKernelReset(os, prios, joins), None);
    AloneAndEnded(os1);
    var r := Step(FromStart(os1), Terminate(1));
    TwoSteps(FromStart(os1), Terminate(1), SetPriority(1, REALTIME));
    PrioritisesTo(r, SetPriority(1, REALTIME));
    HardEffect(r.os, 1);
  }

  /** The same with a hard thread and osPriorityNormal: a SOFT slot, and no live soft thread. */
  lemma DeadThreadHoldsSoftSlot(os: Os, prios: seq<int>, joins: seq<bool>)
    requires os.Shape() && |prios| == |joins| == HW_THREADS
    ensures var os1 := Prepared(OsKernelReset(os, prios, joins), [New(HARD)]);
            && BeforeStart(os1) && Runs(FromStart(os1), Afterlife(NORMAL))
            && var r := After(FromStart(os1), Afterlife(NORMAL));
               Count(r.os.slots, SLOT_S) > 0 && forall i :: 0 <= i < HW_THREADS ==> !r.os.LiveSoft(i)
  {
    OneThread(OsKernelReset(os, prios, joins), HARD);
    var os1 := OsThreadNew(OsKernelReset(os, prios, joins), HARD);
    AloneAndEnded(os1);
    var r := Step(FromStart(os1), Terminate(1));
    TwoSteps(FromStart(os1), Terminate(1), SetPriority(1, NORMAL));
    PrioritisesTo(r, SetPriority(1, NORMAL));
    SoftEffect(r.os, 1);
    NobodyLivesSoft(r, SetPriority(1, NORMAL));
  }

  lemma NobodyLivesSoft(r: Run, c: Call)
    requires Conserved(r) && r.os.num == 2 && !r.os.func[1] && r.os.modes[0] == TMODE_HA
    requires c == SetPriority(1, NORMAL)
    ensures forall i :: 0 <= i < HW_THREADS ==> !Step(r, c).os.LiveSoft(i)
  {
  }
}
