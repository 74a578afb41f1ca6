/** What the slot-changing calls do, as functions on the registers' decoded contents. The class in
    Kernel.dfy is proved against these; KernelRuns.dfy proves what any run of them keeps. */
module KernelSpec {
  import opened Registers
  import opened SlotTable

  const REALTIME: int := 48
  const NORMAL: int := 24

  /** func[i] stands for startup_state[i].func != NULL; priority[i] and joinable[i] are the fields
      of thread i's own attribute record. */
  datatype Os = Os(
    slots: Slots, modes: Modes, func: seq<bool>, priority: seq<int>, joinable: seq<bool>,
    num: int, softId: int, running: bool)
  {
    predicate Shape() {
      |func| == HW_THREADS && |priority| == HW_THREADS && |joinable| == HW_THREADS && 1 <= num <= HW_THREADS
    }

    /** Thread i counts as a soft thread: only the soft bit of its mode matters. */
    predicate LiveSoft(i: int)
      requires Shape() && 0 <= i < HW_THREADS
    {
      Soft(modes[i]) && func[i]
    }

    predicate LiveHard(i: int)
      requires Shape() && 0 <= i < HW_THREADS
    {
      !Soft(modes[i]) && func[i]
    }

    predicate OtherLiveSoft(tid: int)
      requires Shape()
    {
      exists i :: 0 <= i < HW_THREADS && i != tid && LiveSoft(i)
    }
  }

  function WithSlotNum(s: Slots, id: nat, n: int): (r: Slots)
    requires id < 16
    ensures r == SetSlotNum(s, id, n).0
  {
    CodesStay(s, id, n);
    SetSlotNum(s, id, n).0
  }

  lemma CodesStay(s: Slots, id: nat, n: int)
    requires id < 16
    ensures var r := SetSlotNum(s, id, n).0; |r| == 8 && forall i :: 0 <= i < 8 ==> r[i] < 16
  {
    var held := Count(s, id);
    if id != SLOT_D {
      if n > held { ReplaceFirstMeaning(s, SLOT_D, id, n - held); }
      else if n < held { ReplaceFirstMeaning(s, id, SLOT_D, held - n); }
    } else {
      ReplaceSame(s, id, if n > held then n - held else held - n);
    }
  }

  lemma {:induction false} ReplaceSame(s: seq<nat>, a: nat, k: nat)
    ensures ReplaceFirst(s, a, a, k) == s
  {
    if s != [] && k != 0 { ReplaceSame(s[1..], a, if s[0] == a then k - 1 else k); }
  }

  function ModeAfter(m: nat, tmode: int): (r: nat)
    requires m < 4
    ensures r < 4
  {
    if 0 <= tmode < 4 then tmode
    else if tmode == TMODE_HARD then Code(false, Zombie(m))
    else if tmode == TMODE_SOFT then Code(true, Zombie(m))
    else if tmode == TMODE_ACTIVE then Code(Soft(m), false)
    else if tmode == TMODE_ZOMBIE then Code(Soft(m), true)
    else m
  }

  function WithMode(t: Modes, tid: nat, tmode: int): Modes
    requires tid < 8
  {
    t[tid := ModeAfter(t[tid], tmode)]
  }

  function SrttTerminate(os: Os, tid: nat): Os
    requires os.Shape() && tid < 8
  {
    var s := WithSlotNum(os.slots, tid, 0);
    os.(slots := if os.OtherLiveSoft(tid) then s else WithSlotNum(s, SLOT_S, 0))
  }

  function ChangeSrttToHrtt(os: Os, tid: nat): Os
    requires os.Shape() && tid < 8
  {
    var s := if Count(os.slots, tid) == 0 then WithSlotNum(os.slots, tid, 1) else os.slots;
    os.(slots := if !os.OtherLiveSoft(tid) && Count(os.slots, SLOT_S) != 0 then WithSlotNum(s, SLOT_S, 0) else s,
        modes := WithMode(os.modes, tid, TMODE_HARD))
  }

  function ChangeHrttToSrtt(os: Os, tid: nat): Os
    requires os.Shape() && tid < 8
  {
    var s := if !os.OtherLiveSoft(tid) && Count(os.slots, SLOT_S) == 0 then WithSlotNum(os.slots, SLOT_S, 1)
             else os.slots;
    os.(slots := if Count(os.slots, tid) != 0 then WithSlotNum(s, tid, 0) else s,
        modes := WithMode(os.modes, tid, TMODE_SOFT))
  }

  function ThreadAfterCreate(os: Os, tid: nat): Os
    requires os.Shape() && tid < 8
  {
    if os.priority[tid] == REALTIME then
      os.(modes := WithMode(os.modes, tid, TMODE_HA), slots := WithSlotNum(os.slots, tid, 1))
    else if os.priority[tid] == NORMAL then
      os.(modes := WithMode(os.modes, tid, TMODE_SA),
          slots := if os.func[tid] && Count(os.slots, SLOT_S) != 0 then os.slots else WithSlotNum(os.slots, SLOT_S, 1))
    else os
  }

  /** thread_terminate without its cleaning; an unsupported priority is decided by the mode. */
  function ThreadTerminate(os: Os, tid: nat): Os
    requires os.Shape() && tid < 8
  {
    var soft := os.priority[tid] == NORMAL || (os.priority[tid] != REALTIME && Soft(os.modes[tid]));
    var os1 := if soft then SrttTerminate(os, tid) else os.(slots := WithSlotNum(os.slots, tid, 0));
    os1.(modes := WithMode(os1.modes, tid, TMODE_ZOMBIE))
  }

  // ---------- the calls ----------

  /** attr == None stands for a NULL attribute pointer: normal priority, detached. */
  datatype Attr = None | Attr(priority: int, joinable: bool)

  datatype Call =
    | New(attr: Attr)
    | SetPriority(tid: nat, priority: int)
    | Suspend(tid: nat)
    | Resume(tid: nat)
    | Exit(tid: nat)
    | Join(tid: nat)
    | JoinAllVisit(tid: nat)
    | Terminate(tid: nat)

  /** The thread a call names exists. */
  predicate Valid(os: Os, c: Call) {
    c.New? || c.tid < os.num
  }

  function OsThreadNew(os: Os, attr: Attr): Os
    requires os.Shape()
  {
    if os.num == HW_THREADS || (attr.Attr? && attr.priority != REALTIME && attr.priority != NORMAL) then os
    else
      var tid := os.num;
      var os1 := os.(num := tid + 1, func := os.func[tid := true],
                     priority := os.priority[tid := if attr.None? then NORMAL else attr.priority],
                     joinable := os.joinable[tid := attr.Attr? && attr.joinable]);
      if os.running then ThreadAfterCreate(os1, tid) else os1
  }

  function OsThreadSetPriority(os: Os, tid: nat, priority: int): Os
    requires os.Shape() && tid < 8
  {
    if os.priority[tid] == priority then os
    else if priority == REALTIME then ChangeSrttToHrtt(os, tid).(priority := os.priority[tid := REALTIME])
    else if priority == NORMAL then ChangeHrttToSrtt(os, tid).(priority := os.priority[tid := NORMAL])
    else os
  }

  /** A Join whose thread still runs has not returned yet, and one of a detached thread is refused;
      a pass of JoinAll skips a running thread and does not ask whether it is joinable. */
  function Apply(os: Os, c: Call): Os
    requires os.Shape() && Valid(os, c)
  {
    match c
    case New(attr) => OsThreadNew(os, attr)
    case SetPriority(tid, p) => OsThreadSetPriority(os, tid, p)
    case Suspend(tid) => os.(modes := WithMode(os.modes, tid, TMODE_ZOMBIE))
    case Resume(tid) => os.(modes := WithMode(os.modes, tid, TMODE_ACTIVE))
    case Exit(tid) => os.(func := os.func[tid := false])
    case Join(tid) => if !os.joinable[tid] || os.func[tid] then os else ThreadTerminate(os, tid)
    case JoinAllVisit(tid) => if os.func[tid] then os else ThreadTerminate(os, tid)
    case Terminate(tid) => ThreadTerminate(os.(func := os.func[tid := false]), tid)
  }

  // ---------- osKernelStart ----------

  predicate StartsSoft(os: Os, i: nat)
    requires os.Shape() && i < 8
  {
    i > 0 && os.func[i] && os.priority[i] == NORMAL
  }

  /** The remembered soft thread once threads below i have been looked at: the first soft one,
      unless an earlier start left one remembered. */
  function SoftIdAfter(os: Os, i: nat): int
    requires os.Shape() && i <= 8
  {
    if i == 0 then os.softId
    else if SoftIdAfter(os, i - 1) == -1 && StartsSoft(os, i - 1) then i - 1
    else SoftIdAfter(os, i - 1)
  }

  function StartSlot(os: Os, i: nat): (s: nat)
    requires os.Shape() && i < 8
    ensures s < 16
  {
    if i == 0 then 0
    else if os.func[i] && os.priority[i] == REALTIME then i
    else if StartsSoft(os, i) && SoftIdAfter(os, i) == -1 then SLOT_S
    else SLOT_D
  }

  function StartMode(os: Os, i: nat): (m: nat)
    requires os.Shape() && i < 8
    ensures m < 4
  {
    if i == 0 || (os.func[i] && os.priority[i] == REALTIME) then TMODE_HA
    else if StartsSoft(os, i) then TMODE_SA
    else TMODE_SZ
  }

  function StartSlots(os: Os): Slots
    requires os.Shape()
  {
    seq(8, i requires 0 <= i < 8 => StartSlot(os, i))
  }

  function StartModes(os: Os): Modes
    requires os.Shape()
  {
    seq(8, i requires 0 <= i < 8 => StartMode(os, i))
  }

  function OsKernelStart(os: Os): Os
    requires os.Shape()
  {
    os.(slots := StartSlots(os), modes := StartModes(os), softId := SoftIdAfter(os, 8), running := true)
  }

  // ---------- osKernelReset ----------

  /** 0xfffffff0: thread 0 in slot 0, the other slots disabled. */
  function ResetSlots(): Slots {
    seq(8, i requires 0 <= i < 8 => if i == 0 then 0 else SLOT_D)
  }

  function ResetModes(): Modes {
    seq(8, i requires 0 <= i < 8 => if i == 0 then TMODE_HA else TMODE_HZ)
  }

  /** prios and joins are what the kernel's own attribute records hold, which every thread gets back;
      thread 0's is then filled in. */
  function OsKernelReset(os: Os, prios: seq<int>, joins: seq<bool>): Os
    requires os.Shape() && |prios| == |joins| == HW_THREADS
  {
    Os(ResetSlots(), ResetModes(), seq(HW_THREADS, i requires 0 <= i < 8 => i == 0 && os.func[0]),
       prios[0 := REALTIME], joins[0 := false], 1, -1, false)
  }
}
