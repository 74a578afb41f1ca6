/** What every run of the slot-changing calls keeps, from osKernelStart on: no slot is leaked unless an
    ended thread is given a priority again, and no live thread starves unless a call that needs a slot
    finds fewer than two disabled ones. */
module KernelRuns {
  import opened Words
  import opened Registers
  import opened SlotTable
  import opened KernelSpec
  import opened KernelTables
  import Kernel

  /** The state of a run: the kernel's tables; which threads have been joined or terminated at all; and
      which of them have not been given a priority since. */
  datatype Run = Run(os: Os, ended: seq<bool>, closed: seq<bool>)

  function Step(r: Run, c: Call): Run
    requires r.os.Shape() && Valid(r.os, c) && |r.ended| == |r.closed| == HW_THREADS
  {
    Run(Apply(r.os, c),
        if Closes(r.os, c) then r.ended[c.tid := true] else r.ended,
        if Closes(r.os, c) then r.closed[c.tid := true]
        else if Reprioritises(r.os, c) then r.closed[c.tid := false]
        else r.closed)
  }

  ghost predicate OpenSoft(r: Run, i: int)
    requires r.os.Shape() && |r.closed| == HW_THREADS
  {
    0 <= i < r.os.num && Soft(r.os.modes[i]) && !r.closed[i]
  }

  /** Priority and soft bit agree, except for a hard thread terminated before the start, which
      osKernelStart leaves asleep and soft. */
  predicate Agrees(r: Run, i: nat)
    requires r.os.Shape() && |r.closed| == HW_THREADS && i < HW_THREADS
  {
    if r.os.priority[i] == NORMAL then Soft(r.os.modes[i])
    else r.os.priority[i] == REALTIME && (Soft(r.os.modes[i]) ==> r.closed[i])
  }

  /** A slot belongs only to an existing hard thread that is not closed; a soft slot exists only
      beside a soft thread that is not closed; priorities and soft bits agree; an ended thread stays dead. */
  ghost predicate Conserved(r: Run) {
    && r.os.Shape() && r.os.running && |r.ended| == |r.closed| == HW_THREADS
    && (forall i :: 0 <= i < HW_THREADS ==>
          r.os.slots[i] < HW_THREADS || r.os.slots[i] == SLOT_S || r.os.slots[i] == SLOT_D)
    && (forall i :: r.os.num <= i < HW_THREADS ==> !r.os.func[i] && !r.ended[i] && Count(r.os.slots, i) == 0)
    && (forall i :: 0 <= i < r.os.num ==> Agrees(r, i))
    && (forall i :: 0 <= i < r.os.num && (r.closed[i] || Soft(r.os.modes[i])) ==> Count(r.os.slots, i) == 0)
    && (forall i :: 0 <= i < HW_THREADS ==> (r.closed[i] ==> r.ended[i]) && (r.ended[i] ==> !r.os.func[i]))
    && (Count(r.os.slots, SLOT_S) > 0 ==> exists i :: OpenSoft(r, i))
  }

  /** Every live hard thread holds a slot, and there is a soft slot if there is a live soft thread. */
  ghost predicate NoStarvation(os: Os)
    requires os.Shape()
  {
    && (forall i :: 0 <= i < HW_THREADS && os.LiveHard(i) ==> Count(os.slots, i) > 0)
    && ((exists i :: 0 <= i < HW_THREADS && os.LiveSoft(i)) ==> Count(os.slots, SLOT_S) > 0)
  }

  /** The call needs a slot for a live thread: a new hard thread or a thread made hard needs its own
      slot, the first live soft thread needs the soft slot. */
  predicate NeedsSlot(os: Os, c: Call)
    requires os.Shape() && Valid(os, c)
  {
    match c
    case New(attr) =>
      os.num < HW_THREADS && os.running
      && ((attr.Attr? && attr.priority == REALTIME)
          || ((attr.None? || attr.priority == NORMAL) && Count(os.slots, SLOT_S) == 0))
    case SetPriority(tid, p) =>
      Reprioritises(os, c) && os.func[tid]
      && (if p == REALTIME then Count(os.slots, tid) == 0 else !os.OtherLiveSoft(tid) && Count(os.slots, SLOT_S) == 0)
    case _ => false
  }

  // ---------- what one call does to the slot counts ----------

  lemma SlotNum(s: Slots, id: nat, n: nat)
    requires id < 16 && id != SLOT_D
    ensures var r := WithSlotNum(s, id, n);
            && (forall c :: c != id && c != SLOT_D ==> Count(r, c) == Count(s, c))
            && Count(r, id) == (if n <= Count(s, id) || Count(s, SLOT_D) > n - Count(s, id) then n else Count(s, id))
            && Count(r, SLOT_D) + Count(r, id) == Count(s, SLOT_D) + Count(s, id)
            && (forall i :: 0 <= i < 8 ==>
                  r[i] == s[i] || ((r[i] == id || r[i] == SLOT_D) && (s[i] == id || s[i] == SLOT_D)))
  {
    SetSlotNumMeaning(s, id, n);
  }

  /** Only slots of tid, soft slots and disabled slots changed, and only into one another. */
  ghost predicate Moves(s: Slots, s': Slots, tid: nat) {
    && (forall c :: c != tid && c != SLOT_S && c != SLOT_D ==> Count(s', c) == Count(s, c))
    && (forall i :: 0 <= i < 8 && s'[i] != s[i] ==>
          (s'[i] == tid || s'[i] == SLOT_S || s'[i] == SLOT_D) && (s[i] == tid || s[i] == SLOT_S || s[i] == SLOT_D))
  }

  lemma TerminateEffect(os: Os, tid: nat)
    requires os.Shape() && tid < HW_THREADS
    ensures var s := ThreadTerminate(os, tid).slots;
            && Moves(os.slots, s, tid) && Count(s, tid) == 0
            && Count(s, SLOT_S) ==
                 (if (os.priority[tid] == NORMAL || (os.priority[tid] != REALTIME && Soft(os.modes[tid])))
                     && !os.OtherLiveSoft(tid) then 0 else Count(os.slots, SLOT_S))
  {
    SlotNum(os.slots, tid, 0);
    SlotNum(WithSlotNum(os.slots, tid, 0), SLOT_S, 0);
  }

  lemma HardEffect(os: Os, tid: nat)
    requires os.Shape() && tid < HW_THREADS
    ensures var s := ChangeSrttToHrtt(os, tid).slots;
            && Moves(os.slots, s, tid)
            && Count(s, tid) == (if Count(os.slots, tid) == 0 && Count(os.slots, SLOT_D) >= 2 then 1
                                 else Count(os.slots, tid))
            && Count(s, SLOT_S) == (if os.OtherLiveSoft(tid) then Count(os.slots, SLOT_S) else 0)
  {
    SlotNum(os.slots, tid, 1);
    SlotNum(os.slots, SLOT_S, 0);
    SlotNum(WithSlotNum(os.slots, tid, 1), SLOT_S, 0);
  }

  lemma SoftEffect(os: Os, tid: nat)
    requires os.Shape() && tid < HW_THREADS
    ensures var s := ChangeHrttToSrtt(os, tid).slots;
            && Moves(os.slots, s, tid) && Count(s, tid) == 0
            && Count(s, SLOT_S) ==
                 (if !os.OtherLiveSoft(tid) && Count(os.slots, SLOT_S) == 0 && Count(os.slots, SLOT_D) >= 2
                  then 1 else Count(os.slots, SLOT_S))
  {
    SlotNum(os.slots, SLOT_S, 1);
    SlotNum(os.slots, tid, 0);
    SlotNum(WithSlotNum(os.slots, SLOT_S, 1), tid, 0);
  }

  lemma CreateEffect(os: Os, tid: nat)
    requires os.Shape() && tid < HW_THREADS && os.func[tid] && Count(os.slots, tid) == 0
    requires os.priority[tid] == REALTIME || os.priority[tid] == NORMAL
    ensures var s := ThreadAfterCreate(os, tid).slots;
            var room := Count(os.slots, SLOT_D) >= 2;
            && Moves(os.slots, s, tid)
            && Count(s, tid) == (if os.priority[tid] == REALTIME && room then 1 else 0)
            && Count(s, SLOT_S) == (if os.priority[tid] == NORMAL && Count(os.slots, SLOT_S) == 0 && room then 1
                                    else Count(os.slots, SLOT_S))
  {
    SlotNum(os.slots, tid, 1);
    SlotNum(os.slots, SLOT_S, 1);
  }

  // ---------- conservation ----------

  /** Thread tid alone changed; with its own part of the invariant in place, the whole holds. */
  ghost predicate OnlyThread(r: Run, r': Run, tid: int)
    requires r.os.Shape() && r'.os.Shape() && |r.ended| == |r.closed| == HW_THREADS
  {
    && 0 <= tid < r'.os.num && |r'.ended| == |r'.closed| == HW_THREADS && r'.os.running == r.os.running
    && (r'.os.num == r.os.num || r'.os.num == tid + 1 == r.os.num + 1)
    && (forall i :: 0 <= i < HW_THREADS && i != tid ==>
          r'.os.modes[i] == r.os.modes[i] && r'.os.func[i] == r.os.func[i]
          && r'.os.priority[i] == r.os.priority[i] && r'.ended[i] == r.ended[i] && r'.closed[i] == r.closed[i])
  }

  lemma ConservedAfter(r: Run, r': Run, tid: nat)
    requires Conserved(r) && r'.os.Shape() && OnlyThread(r, r', tid) && Moves(r.os.slots, r'.os.slots, tid)
    requires Agrees(r', tid) && (r'.closed[tid] ==> r'.ended[tid]) && (r'.ended[tid] ==> !r'.os.func[tid])
    requires r'.closed[tid] || Soft(r'.os.modes[tid]) ==> Count(r'.os.slots, tid) == 0
    requires Count(r'.os.slots, SLOT_S) > 0 ==> exists i :: OpenSoft(r', i)
    ensures Conserved(r')
  {
    forall i | 0 <= i < r'.os.num ensures Agrees(r', i) { if i != tid { assert Agrees(r, i); } }
  }

  lemma TerminateConserves(r: Run, tid: nat)
    requires Conserved(r) && tid < r.os.num
    ensures Conserved(Run(ThreadTerminate(r.os.(func := r.os.func[tid := false]), tid), r.ended[tid := true],
                          r.closed[tid := true]))
  {
    var os := r.os.(func := r.os.func[tid := false]);
    var r' := Run(ThreadTerminate(os, tid), r.ended[tid := true], r.closed[tid := true]);
    TerminateEffect(os, tid);
    assert Agrees(r, tid);
    if Count(r'.os.slots, SLOT_S) > 0 {
      if os.priority[tid] == NORMAL {
        var j :| 0 <= j < HW_THREADS && j != tid && os.LiveSoft(j);
        assert OpenSoft(r', j);
      } else {
        var j :| OpenSoft(r, j);
        assert OpenSoft(r', j);
      }
    }
    ConservedAfter(r, r', tid);
  }

  lemma HardConserves(r: Run, tid: nat)
    requires Conserved(r) && tid < r.os.num
    ensures Conserved(Run(ChangeSrttToHrtt(r.os, tid).(priority := r.os.priority[tid := REALTIME]), r.ended,
                          r.closed[tid := false]))
  {
    var r' := Run(ChangeSrttToHrtt(r.os, tid).(priority := r.os.priority[tid := REALTIME]), r.ended,
                  r.closed[tid := false]);
    HardEffect(r.os, tid);
    if Count(r'.os.slots, SLOT_S) > 0 {
      var j :| 0 <= j < HW_THREADS && j != tid && r.os.LiveSoft(j);
      assert OpenSoft(r', j);
    }
    ConservedAfter(r, r', tid);
  }

  lemma SoftConserves(r: Run, tid: nat)
    requires Conserved(r) && tid < r.os.num
    ensures Conserved(Run(ChangeHrttToSrtt(r.os, tid).(priority := r.os.priority[tid := NORMAL]), r.ended,
                          r.closed[tid := false]))
  {
    var r' := Run(ChangeHrttToSrtt(r.os, tid).(priority := r.os.priority[tid := NORMAL]), r.ended,
                  r.closed[tid := false]);
    SoftEffect(r.os, tid);
    assert OpenSoft(r', tid);
    ConservedAfter(r, r', tid);
  }

  /** The tables of osThreadNew before thread_after_create. */
  function WithThread(os: Os, attr: Attr): Os
    requires os.Shape() && os.num < HW_THREADS
  {
    os.(num := os.num + 1, func := os.func[os.num := true],
        priority := os.priority[os.num := if attr.None? then NORMAL else attr.priority],
        joinable := os.joinable[os.num := attr.Attr? && attr.joinable])
  }

  lemma NewConserves(r: Run, attr: Attr)
    requires Conserved(r) && Accepts(r.os, attr)
    ensures Conserved(Run(ThreadAfterCreate(WithThread(r.os, attr), r.os.num), r.ended, r.closed))
  {
    var os := r.os;
    var r' := Run(ThreadAfterCreate(WithThread(os, attr), os.num), r.ended, r.closed);
    CreateEffect(WithThread(os, attr), os.num);
    if Soft(r'.os.modes[os.num]) {
      assert OpenSoft(r', os.num);
    } else if Count(os.slots, SLOT_S) > 0 {
      var j :| OpenSoft(r, j);
      assert OpenSoft(r', j);
    }
    ConservedAfter(r, r', os.num);
  }

  /** A call that touches no slot and no priority. */
  lemma QuietConserves(r: Run, r': Run, tid: nat)
    requires Conserved(r) && r'.os.Shape() && OnlyThread(r, r', tid) && r'.os.num == r.os.num
    requires r'.os.slots == r.os.slots && r'.os.priority == r.os.priority
    requires r'.ended == r.ended && r'.closed == r.closed
    requires Soft(r'.os.modes[tid]) == Soft(r.os.modes[tid]) && (r'.os.func[tid] ==> r.os.func[tid])
    ensures Conserved(r')
  {
    assert Agrees(r, tid);
    if Count(r.os.slots, SLOT_S) > 0 { var j :| OpenSoft(r, j); assert OpenSoft(r', j); }
    ConservedAfter(r, r', tid);
  }

  lemma ClosesTo(r: Run, c: Call)
    requires Conserved(r) && Valid(r.os, c) && Closes(r.os, c)
    ensures Step(r, c) == Run(ThreadTerminate(r.os.(func := r.os.func[c.tid := false]), c.tid), r.ended[c.tid := true],
                              r.closed[c.tid := true])
  {
    if !c.Terminate? { assert r.os.func[c.tid := false] == r.os.func; }
  }

  lemma PrioritisesTo(r: Run, c: Call)
    requires Conserved(r) && Valid(r.os, c) && Reprioritises(r.os, c)
    ensures Step(r, c) == Run(if c.priority == REALTIME
                              then ChangeSrttToHrtt(r.os, c.tid).(priority := r.os.priority[c.tid := REALTIME])
                              else ChangeHrttToSrtt(r.os, c.tid).(priority := r.os.priority[c.tid := NORMAL]),
                              r.ended, r.closed[c.tid := false])
  {
  }

  lemma NewTo(r: Run, c: Call)
    requires Conserved(r) && Valid(r.os, c) && c.New?
    ensures Step(r, c) == if Accepts(r.os, c.attr)
                          then Run(ThreadAfterCreate(WithThread(r.os, c.attr), r.os.num), r.ended, r.closed)
                          else r
  {
  }

  predicate Quiet(os: Os, c: Call)
    requires os.Shape() && Valid(os, c)
  {
    !c.New? && !Closes(os, c) && !Reprioritises(os, c)
  }

  lemma QuietTo(r: Run, c: Call)
    requires Conserved(r) && Valid(r.os, c) && Quiet(r.os, c)
    ensures var r' := Step(r, c);
            && OnlyThread(r, r', c.tid) && r'.os.num == r.os.num && r'.os.slots == r.os.slots
            && r'.os.priority == r.os.priority && r'.ended == r.ended && r'.closed == r.closed
            && Soft(r'.os.modes[c.tid]) == Soft(r.os.modes[c.tid]) && (r'.os.func[c.tid] ==> r.os.func[c.tid])
  {
  }

  /** Any call, with any number of disabled slots, keeps the conservation invariant. */
  lemma StepConserves(r: Run, c: Call)
    requires Conserved(r) && Valid(r.os, c)
    ensures Conserved(Step(r, c))
  {
    if c.New? {
      NewTo(r, c);
      if Accepts(r.os, c.attr) { NewConserves(r, c.attr); }
    } else if Reprioritises(r.os, c) {
      PrioritisesTo(r, c);
      if c.priority == REALTIME { HardConserves(r, c.tid); } else { SoftConserves(r, c.tid); }
    } else if Closes(r.os, c) {
      ClosesTo(r, c);
      TerminateConserves(r, c.tid);
    } else {
      QuietTo(r, c);
      QuietConserves(r, Step(r, c), c.tid);
    }
  }

  /** Who is asleep after a call: suspending, joining or terminating puts the thread to sleep, resuming
      or creating wakes it, a priority change leaves it as it is, and nobody else is touched. */
  lemma SleepersExactly(r: Run, c: Call, i: nat)
    requires Conserved(r) && Valid(r.os, c) && i < HW_THREADS
    ensures Zombie(Step(r, c).os.modes[i]) <==>
              if c.New? then Zombie(r.os.modes[i]) && !(Accepts(r.os, c.attr) && i == r.os.num)
              else if i != c.tid then Zombie(r.os.modes[i])
              else c.Suspend? || Closes(r.os, c) || (Zombie(r.os.modes[i]) && !c.Resume?)
  {
    ModesExactly(r.os, c, i);
  }

  // ---------- starvation ----------

  /** If tid alone changed, the others are fed as before wherever the soft slot is kept for them. */
  lemma FedAfter(r: Run, r': Run, tid: nat)
    requires Conserved(r) && r'.os.Shape() && OnlyThread(r, r', tid) && Moves(r.os.slots, r'.os.slots, tid)
    requires NoStarvation(r.os)
    requires r.os.OtherLiveSoft(tid) ==> Count(r'.os.slots, SLOT_S) >= Count(r.os.slots, SLOT_S)
    ensures NoStarvation(r'.os) <==> (r'.os.LiveHard(tid) ==> Count(r'.os.slots, tid) > 0)
                                     && (r'.os.LiveSoft(tid) ==> Count(r'.os.slots, SLOT_S) > 0)
  {
    if j :| 0 <= j < HW_THREADS && r'.os.LiveSoft(j) {
      assert j == tid || r.os.LiveSoft(j);
    }
    forall i | 0 <= i < HW_THREADS && r'.os.LiveHard(i) && i != tid ensures Count(r'.os.slots, i) > 0 {
      assert r.os.LiveHard(i);
    }
  }

  lemma TerminateFeeds(r: Run, tid: nat)
    requires Conserved(r) && NoStarvation(r.os) && tid < r.os.num
    ensures NoStarvation(ThreadTerminate(r.os.(func := r.os.func[tid := false]), tid))
  {
    var os := r.os.(func := r.os.func[tid := false]);
    TerminateEffect(os, tid);
    if j :| 0 <= j < HW_THREADS && j != tid && r.os.LiveSoft(j) { assert os.LiveSoft(j); }
    FedAfter(r, Run(ThreadTerminate(os, tid), r.ended, r.closed), tid);
  }

  lemma HardFeeds(r: Run, tid: nat)
    requires Conserved(r) && NoStarvation(r.os) && tid < r.os.num
    ensures NoStarvation(ChangeSrttToHrtt(r.os, tid).(priority := r.os.priority[tid := REALTIME])) <==>
            !(r.os.func[tid] && Count(r.os.slots, tid) == 0 && Count(r.os.slots, SLOT_D) < 2)
  {
    HardEffect(r.os, tid);
    FedAfter(r, Run(ChangeSrttToHrtt(r.os, tid).(priority := r.os.priority[tid := REALTIME]), r.ended, r.closed), tid);
  }

  lemma SoftFeeds(r: Run, tid: nat)
    requires Conserved(r) && NoStarvation(r.os) && tid < r.os.num
    ensures NoStarvation(ChangeHrttToSrtt(r.os, tid).(priority := r.os.priority[tid := NORMAL])) <==>
            !(r.os.func[tid] && !r.os.OtherLiveSoft(tid) && Count(r.os.slots, SLOT_S) == 0
              && Count(r.os.slots, SLOT_D) < 2)
  {
    SoftEffect(r.os, tid);
    FedAfter(r, Run(ChangeHrttToSrtt(r.os, tid).(priority := r.os.priority[tid := NORMAL]), r.ended, r.closed), tid);
  }

  lemma NewFeeds(r: Run, attr: Attr)
    requires Conserved(r) && NoStarvation(r.os) && Accepts(r.os, attr)
    ensures NoStarvation(ThreadAfterCreate(WithThread(r.os, attr), r.os.num)) <==>
            !(NeedsSlot(r.os, New(attr)) && Count(r.os.slots, SLOT_D) < 2)
  {
    CreateEffect(WithThread(r.os, attr), r.os.num);
    FedAfter(r, Run(ThreadAfterCreate(WithThread(r.os, attr), r.os.num), r.ended, r.closed), r.os.num);
  }

  lemma QuietFeeds(r: Run, r': Run, tid: nat)
    requires Conserved(r) && NoStarvation(r.os) && r'.os.Shape() && OnlyThread(r, r', tid) && r'.os.num == r.os.num
    requires r'.os.slots == r.os.slots
    requires Soft(r'.os.modes[tid]) == Soft(r.os.modes[tid]) && (r'.os.func[tid] ==> r.os.func[tid])
    ensures NoStarvation(r'.os)
  {
    if r'.os.LiveSoft(tid) { assert r.os.LiveSoft(tid); }
    if r'.os.LiveHard(tid) { assert r.os.LiveHard(tid); }
    FedAfter(r, r', tid);
  }

  /** Exactly when a call starves a live thread: when it needs a slot and finds at most one
      disabled, which set_slot_num will not hand out and whose refusal its callers ignore. */
  lemma StepFeedsExactly(r: Run, c: Call)
    requires Conserved(r) && NoStarvation(r.os) && Valid(r.os, c)
    ensures NoStarvation(Step(r, c).os) <==> !(NeedsSlot(r.os, c) && Count(r.os.slots, SLOT_D) < 2)
  {
    if c.New? {
      NewTo(r, c);
      if Accepts(r.os, c.attr) { NewFeeds(r, c.attr); }
    } else if Reprioritises(r.os, c) {
      PrioritisesTo(r, c);
      if c.priority == REALTIME { HardFeeds(r, c.tid); } else { SoftFeeds(r, c.tid); }
    } else if Closes(r.os, c) {
      ClosesTo(r, c);
      TerminateFeeds(r, c.tid);
    } else {
      QuietTo(r, c);
      QuietFeeds(r, Step(r, c), c.tid);
    }
  }

  // ---------- the start ----------

  /** What the calls before the start leave: threads below num set up or terminated, the rest empty. */
  ghost predicate BeforeStart(os: Os) {
    && os.Shape() && os.priority[0] == REALTIME
    && (forall i :: 0 < i < os.num ==> os.priority[i] == REALTIME || os.priority[i] == NORMAL)
    && (forall i :: os.num <= i < HW_THREADS ==> !os.func[i])
  }

  /** The threads terminated before the start. */
  function EndedBefore(os: Os): (b: seq<bool>)
    requires os.Shape()
    ensures |b| == HW_THREADS
  {
    seq(HW_THREADS, i requires 0 <= i < 8 => 0 < i < os.num && !os.func[i])
  }

  function Started(os: Os): Run
    requires os.Shape()
  {
    Run(OsKernelStart(os), EndedBefore(os), EndedBefore(os))
  }

  lemma {:induction false} CountFrom(s: seq<nat>, x: nat, k: nat)
    requires k < |s| && s[k] == x
    ensures Count(s, x) > 0
  {
    if k > 0 { CountFrom(s[1..], x, k - 1); }
  }

  /** The soft slot is given out once: to the first soft thread, if none is remembered. */
  lemma {:induction false} SoftIdMeaning(os: Os, n: nat)
    requires os.Shape() && n <= HW_THREADS
    ensures os.softId != -1 ==> SoftIdAfter(os, n) == os.softId
    ensures os.softId == -1 && SoftIdAfter(os, n) == -1 ==> forall i :: 0 <= i < n ==> !StartsSoft(os, i)
    ensures os.softId == -1 && SoftIdAfter(os, n) != -1 ==>
              var k := SoftIdAfter(os, n); 0 <= k < n && StartsSoft(os, k) && StartSlot(os, k) == SLOT_S
    ensures os.softId != -1 ==> forall i :: 0 <= i < n ==> StartSlot(os, i) != SLOT_S
  {
    if n > 0 { SoftIdMeaning(os, n - 1); }
  }

  lemma StartCounts(os: Os, i: nat)
    requires BeforeStart(os) && i < HW_THREADS
    ensures Count(StartSlots(os), i) > 0 <==> StartSlot(os, i) == i
    ensures StartSlot(os, i) == i <==> i == 0 || (os.func[i] && os.priority[i] == REALTIME)
  {
    var s := StartSlots(os);
    if s[i] == i { CountFrom(s, i, i); } else { CountZero(s, i); }
  }

  /** osKernelStart sets up the conservation invariant. */
  lemma StartConserves(os: Os)
    requires BeforeStart(os)
    ensures Conserved(Started(os))
  {
    var r := Started(os);
    forall i | 0 <= i < HW_THREADS ensures Count(r.os.slots, i) > 0 <==> StartSlot(os, i) == i { StartCounts(os, i); }
    forall i | 0 <= i < HW_THREADS
      ensures StartSlot(os, i) == i <==> i == 0 || (os.func[i] && os.priority[i] == REALTIME)
    {
      StartCounts(os, i);
    }
    if Count(r.os.slots, SLOT_S) > 0 {
      CountZero(r.os.slots, SLOT_S);
      var k :| 0 <= k < HW_THREADS && r.os.slots[k] == SLOT_S;
      assert OpenSoft(r, k);
    }
  }

  /** After osKernelStart nobody starves exactly when no soft thread was created or no soft thread
      is remembered from an earlier start. */
  lemma StartFeedsExactly(os: Os)
    requires BeforeStart(os)
    ensures NoStarvation(Started(os).os) <==> os.softId == -1 || forall i :: 0 < i < os.num ==> !StartsSoft(os, i)
  {
    var os' := Started(os).os;
    SoftIdMeaning(os, HW_THREADS);
    forall i | 0 <= i < HW_THREADS && os'.LiveHard(i) ensures Count(os'.slots, i) > 0 { StartCounts(os, i); }
    if os.softId == -1 {
      if j :| 0 <= j < HW_THREADS && os'.LiveSoft(j) {
        assert StartsSoft(os, j);
        CountFrom(os'.slots, SLOT_S, SoftIdAfter(os, HW_THREADS));
      }
    } else {
      CountZero(os'.slots, SLOT_S);
      if i :| 0 < i < os.num && StartsSoft(os, i) { assert os'.LiveSoft(i); }
      if j :| 0 <= j < HW_THREADS && os'.LiveSoft(j) { assert StartsSoft(os, j) && j < os.num; }
    }
  }

  // ---------- runs ----------

  ghost function FromStart(os: Os): (r: Run)
    requires BeforeStart(os)
    ensures Conserved(r) && r == Started(os)
  {
    StartConserves(os);
    Started(os)
  }

  /** The calls can be made one after another: each names an existing thread. */
  ghost predicate Runs(r: Run, cs: seq<Call>)
    requires Conserved(r)
    decreases |cs|
  {
    cs == [] || (Valid(r.os, cs[0]) && (StepConserves(r, cs[0]); Runs(Step(r, cs[0]), cs[1..])))
  }

  ghost function After(r: Run, cs: seq<Call>): (r': Run)
    requires Conserved(r) && Runs(r, cs)
    ensures Conserved(r')
    decreases |cs|
  {
    if cs == [] then r else StepConserves(r, cs[0]); After(Step(r, cs[0]), cs[1..])
  }

  /** Every call that needs a slot finds two disabled ones. */
  ghost predicate Roomy(r: Run, cs: seq<Call>)
    requires Conserved(r) && Runs(r, cs)
    decreases |cs|
  {
    cs == [] || ((NeedsSlot(r.os, cs[0]) ==> Count(r.os.slots, SLOT_D) >= 2)
                 && (StepConserves(r, cs[0]); Roomy(Step(r, cs[0]), cs[1..])))
  }

  lemma {:induction false} RunFeeds(r: Run, cs: seq<Call>)
    requires Conserved(r) && Runs(r, cs) && Roomy(r, cs) && NoStarvation(r.os)
    ensures NoStarvation(After(r, cs).os)
    decreases |cs|
  {
    if cs != [] {
      StepConserves(r, cs[0]);
      StepFeedsExactly(r, cs[0]);
      RunFeeds(Step(r, cs[0]), cs[1..]);
    }
  }

  /** No starvation, in every run from a start with no remembered soft thread. */
  lemma NobodyStarves(os: Os, cs: seq<Call>)
    requires BeforeStart(os) && os.softId == -1
    requires Runs(FromStart(os), cs) && Roomy(FromStart(os), cs)
    ensures NoStarvation(After(FromStart(os), cs).os)
  {
    StartFeedsExactly(os);
    RunFeeds(FromStart(os), cs);
  }

  /** Slot conservation: however a run went, once every thread but thread 0 is closed and thread 0 is
      still hard, each slot is disabled or thread 0's. */
  lemma AllSlotsReturned(r: Run)
    requires Conserved(r) && !Soft(r.os.modes[0])
    requires forall i :: 0 < i < r.os.num ==> r.closed[i]
    ensures forall k :: 0 <= k < HW_THREADS ==> r.os.slots[k] == 0 || r.os.slots[k] == SLOT_D
  {
    forall k | 0 <= k < HW_THREADS ensures r.os.slots[k] == 0 || r.os.slots[k] == SLOT_D {
      CountFrom(r.os.slots, r.os.slots[k], k);
    }
  }

  /** A call that does not name thread 0 moves none of its slots and gives it none. */
  lemma ThreadZeroKeepsSlots(r: Run, c: Call)
    requires Conserved(r) && Valid(r.os, c) && !Names(c, 0)
    ensures forall k :: 0 <= k < HW_THREADS ==> (Step(r, c).os.slots[k] == 0 <==> r.os.slots[k] == 0)
    ensures Step(r, c).os.modes[0] == r.os.modes[0]
  {
    if c.New? {
      NewTo(r, c);
      if Accepts(r.os, c.attr) { CreateEffect(WithThread(r.os, c.attr), r.os.num); }
    } else if Reprioritises(r.os, c) {
      PrioritisesTo(r, c);
      if c.priority == REALTIME { HardEffect(r.os, c.tid); } else { SoftEffect(r.os, c.tid); }
    } else if Closes(r.os, c) {
      ClosesTo(r, c);
      TerminateEffect(r.os.(func := r.os.func[c.tid := false]), c.tid);
    } else {
      QuietTo(r, c);
    }
  }

  lemma {:induction false} RunKeepsThreadZero(r: Run, cs: seq<Call>)
    requires Conserved(r) && Runs(r, cs) && forall i :: 0 <= i < |cs| ==> !Names(cs[i], 0)
    ensures var r' := After(r, cs);
            && r'.os.modes[0] == r.os.modes[0]
            && forall k :: 0 <= k < HW_THREADS ==> (r'.os.slots[k] == 0 <==> r.os.slots[k] == 0)
    decreases |cs|
  {
    if cs != [] {
      StepConserves(r, cs[0]);
      ThreadZeroKeepsSlots(r, cs[0]);
      RunKeepsThreadZero(Step(r, cs[0]), cs[1..]);
    }
  }

  lemma BackToReset(s: Slots)
    requires forall k :: 0 <= k < HW_THREADS ==> (s[k] == 0 || s[k] == SLOT_D) && (s[k] == 0 <==> k == 0)
    ensures s == ResetSlots()
  {
  }

  lemma StartHoldsZero(os: Os)
    requires BeforeStart(os)
    ensures forall k :: 0 <= k < HW_THREADS ==> (Started(os).os.slots[k] == 0 <==> k == 0)
    ensures Started(os).os.modes[0] == TMODE_HA
  {
    forall k | 0 <= k < HW_THREADS ensures StartSlot(os, k) == 0 <==> k == 0 {}
  }

  lemma RestoredFrom(r: Run, cs: seq<Call>)
    requires Conserved(r) && Runs(r, cs) && !Soft(r.os.modes[0])
    requires forall k :: 0 <= k < HW_THREADS ==> (r.os.slots[k] == 0 <==> k == 0)
    requires forall i :: 0 <= i < |cs| ==> !Names(cs[i], 0)
    requires var r' := After(r, cs); forall i :: 0 < i < r'.os.num ==> r'.closed[i]
    ensures After(r, cs).os.slots == ResetSlots()
  {
    RunKeepsThreadZero(r, cs);
    AllSlotsReturned(After(r, cs));
    BackToReset(After(r, cs).os.slots);
  }

  /** From any start, over any calls that leave thread 0 alone: once every other thread is closed
      the slots are back at their reset values. */
  lemma SlotsRestored(os: Os, cs: seq<Call>)
    requires BeforeStart(os) && Runs(FromStart(os), cs)
    requires forall i :: 0 <= i < |cs| ==> !Names(cs[i], 0)
    requires var r := After(FromStart(os), cs); forall i :: 0 < i < r.os.num ==> r.closed[i]
    ensures After(FromStart(os), cs).os.slots == ResetSlots()
  {
    StartHoldsZero(os);
    RestoredFrom(FromStart(os), cs);
  }

  /** The same of the register itself: it holds exactly the word that osKernelReset writes, 0xfffffff0. */
  lemma RegisterRestored(badvaddr: Word)
    requires GetSlots(badvaddr) == ResetSlots()
    ensures badvaddr == Not(OfNat(0xF))
  {
    Kernel.ResetRegisters();
    SetGetSlots(badvaddr);
    SetGetSlots(Not(OfNat(0xF)));
  }

  // ---------- from the reset on ----------

  /** The calls made while the kernel is not running. */
  function Prepared(os: Os, cs: seq<Call>): (r: Os)
    requires os.Shape()
    ensures r.Shape()
    decreases |cs|
  {
    if cs == [] || os.running || !Valid(os, cs[0]) then os else Prepared(Apply(os, cs[0]), cs[1..])
  }

  /** No call makes thread 0 soft. */
  predicate KeepsZeroHard(cs: seq<Call>) {
    forall i :: 0 <= i < |cs| && cs[i].SetPriority? && cs[i].tid == 0 ==> cs[i].priority != NORMAL
  }

  lemma ApplyReady(os: Os, c: Call)
    requires BeforeStart(os) && !os.running && Valid(os, c) && KeepsZeroHard([c])
    ensures BeforeStart(Apply(os, c)) && Apply(os, c).softId == os.softId && !Apply(os, c).running
  {
    assert c == [c][0];
    if c.SetPriority? { assert Apply(os, c) == OsThreadSetPriority(os, c.tid, c.priority); }
  }

  lemma {:induction false} PreparedReady(os: Os, cs: seq<Call>)
    requires BeforeStart(os) && !os.running && KeepsZeroHard(cs)
    ensures BeforeStart(Prepared(os, cs)) && Prepared(os, cs).softId == os.softId && !Prepared(os, cs).running
    decreases |cs|
  {
    if cs != [] && Valid(os, cs[0]) {
      ApplyReady(os, cs[0]);
      PreparedReady(Apply(os, cs[0]), cs[1..]);
    }
  }

  lemma {:induction false} PreparedMore(os: Os, cs: seq<Call>, c: Call)
    requires BeforeStart(os) && !os.running && KeepsZeroHard(cs) && forall i :: 0 <= i < |cs| ==> cs[i].New?
    requires c.New?
    ensures Prepared(os, cs + [c]) == Apply(Prepared(os, cs), c)
    decreases |cs|
  {
    if cs == [] {
      assert cs + [c] == [c] && [c][1..] == [];
    } else {
      assert (cs + [c])[0] == cs[0] && (cs + [c])[1..] == cs[1..] + [c];
      PreparedMore(Apply(os, cs[0]), cs[1..], c);
    }
    PreparedReady(os, cs);
  }

  /** Reset, any calls that set threads up or end them, start, then any calls that find room when they
      need it: whatever state the reset met, nobody starves. */
  lemma NobodyStarvesAfterReset(os: Os, prios: seq<int>, joins: seq<bool>, before: seq<Call>, cs: seq<Call>)
    requires os.Shape() && |prios| == |joins| == HW_THREADS && KeepsZeroHard(before)
    requires var os1 := Prepared(OsKernelReset(os, prios, joins), before);
             BeforeStart(os1) ==> Runs(FromStart(os1), cs) && Roomy(FromStart(os1), cs)
    ensures var os1 := Prepared(OsKernelReset(os, prios, joins), before);
            BeforeStart(os1) && NoStarvation(After(FromStart(os1), cs).os)
  {
    PreparedReady(OsKernelReset(os, prios, joins), before);
    NobodyStarves(Prepared(OsKernelReset(os, prios, joins), before), cs);
  }

  // ---------- states in which the conditions above fail ----------

  const HARD: Attr := Attr(REALTIME, true)

  /** So many hard threads created after a reset. */
  lemma {:induction false} HardThreads(os: Os, n: nat) returns (cs: seq<Call>)
    requires BeforeStart(os) && !os.running && os.num == 1 && n <= 7
    ensures KeepsZeroHard(cs) && forall i :: 0 <= i < |cs| ==> cs[i].New?
    ensures var r := Prepared(os, cs);
            && BeforeStart(r) && !r.running && r.num == n + 1 && r.softId == os.softId
            && forall i :: 0 < i <= n ==> r.func[i] && r.priority[i] == REALTIME
  {
    if n == 0 {
      cs := [];
    } else {
      cs := HardThreads(os, n - 1);
      PreparedReady(os, cs);
      PreparedMore(os, cs, New(HARD));
      cs := cs + [New(HARD)];
    }
  }

  /** Six hard threads beside thread 0, created between a reset and the start, leave one slot disabled:
      the eighth thread, created then, never runs. */
  lemma EighthThreadStarves(os: Os, prios: seq<int>, joins: seq<bool>) returns (before: seq<Call>)
    requires os.Shape() && |prios| == |joins| == HW_THREADS
    ensures var os1 := Prepared(OsKernelReset(os, prios, joins), before);
            && BeforeStart(os1) && NoStarvation(FromStart(os1).os)
            && Valid(FromStart(os1).os, New(HARD)) && !NoStarvation(Step(FromStart(os1), New(HARD)).os)
  {
    before := HardThreads(OsKernelReset(os, prios, joins), 6);
    var os1 := Prepared(OsKernelReset(os, prios, joins), before);
    var r := FromStart(os1);
    StartFeedsExactly(os1);
    forall k | 0 <= k < 7 ensures r.os.slots[k] != SLOT_D { StartCounts(os1, k); }
    FewDisabled(r.os.slots);
    StepFeedsExactly(r, New(HARD));
  }

  lemma FewDisabled(s: Slots)
    requires forall k :: 0 <= k < 7 ==> s[k] != SLOT_D
    ensures Count(s, SLOT_D) <= 1
  {
    CountZero(s[..7], SLOT_D);
    CountSplit(s[..7], s[7..], SLOT_D);
    assert s == s[..7] + s[7..];
    assert s[7..] == [s[7]] && Count([s[7]], SLOT_D) <= 1;
  }

  lemma {:induction false} CountSplit(a: seq<nat>, b: seq<nat>, x: nat)
    ensures Count(a + b, x) == Count(a, x) + Count(b, x)
  {
    if a == [] {
      assert a + b == b;
    } else {
      assert (a + b)[1..] == a[1..] + b;
      CountSplit(a[1..], b, x);
    }
  }

  /** A second osKernelStart without a reset starves somebody exactly when a live soft thread exists. */
  lemma SecondStartStarvesExactly(os: Os)
    requires BeforeStart(os) && os.softId == -1
    ensures BeforeStart(OsKernelStart(os)) && NoStarvation(FromStart(os).os)
    ensures NoStarvation(FromStart(OsKernelStart(os)).os) <==> forall i :: 0 < i < os.num ==> !StartsSoft(os, i)
  {
    var os2 := OsKernelStart(os);
    StartFeedsExactly(os);
    StartFeedsExactly(os2);
    SoftIdMeaning(os, HW_THREADS);
    assert forall i :: 0 <= i < 8 ==> StartsSoft(os2, i) == StartsSoft(os, i);
  }

  /** A call of osThreadNew after a reset. */
  lemma OneThread(os0: Os, attr: Attr)
    requires BeforeStart(os0) && !os0.running && os0.num == 1
    ensures Prepared(os0, [New(attr)]) == OsThreadNew(os0, attr) && BeforeStart(OsThreadNew(os0, attr))
    ensures !OsThreadNew(os0, attr).running && OsThreadNew(os0, attr).softId == os0.softId
  {
    PreparedReady(os0, [New(attr)]);
    assert [New(attr)][1..] == [];
  }

  /** One soft thread is enough: reset, create it, start twice. */
  lemma SecondStartStarves(os: Os, prios: seq<int>, joins: seq<bool>)
    requires os.Shape() && |prios| == |joins| == HW_THREADS
    ensures var os1 := Prepared(OsKernelReset(os, prios, joins), [New(None)]);
            && BeforeStart(os1) && BeforeStart(OsKernelStart(os1))
            && NoStarvation(FromStart(os1).os) && !NoStarvation(FromStart(OsKernelStart(os1)).os)
  {
    OneThread(OsKernelReset(os, prios, joins), None);
    var os1 := OsThreadNew(OsKernelReset(os, prios, joins), None);
    assert StartsSoft(os1, 1);
    SecondStartStarvesExactly(os1);
  }
}
