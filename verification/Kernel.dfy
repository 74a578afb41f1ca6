/** The scheduler's and kernel's state as the program holds it: two registers and per-thread
    tables, updated in place by the loops of flexpret_scheduler.c, flexpret_threads.c and
    flexpret_kernel.c. Each method is proved equal to its function in KernelSpec. Taking and
    releasing slot_mutex is the subject of SlotLocking.dfy and leaves no trace here. */
module Kernel {
  import opened Words
  import opened Registers
  import opened SlotTable
  import opened KernelSpec
  import opened KernelTables

  datatype Status = OsOK | OsError | OsErrorParameter

  class OsState {
    var badvaddr: Word
    var ptbr: Word
    const func: array<bool>
    const priority: array<int>
    const joinable: array<bool>
    var threadNum: int
    var defaultSoftSlotId: int
    var running: bool

    ghost predicate Valid()
      reads this, func, priority, joinable
    {
      && func.Length == HW_THREADS && priority.Length == HW_THREADS && joinable.Length == HW_THREADS
      && joinable != func
      && 1 <= threadNum <= HW_THREADS
    }

    ghost function Abs(): (os: Os)
      requires Valid()
      reads this, func, priority, joinable
      ensures os.Shape()
    {
      Os(GetSlots(badvaddr), GetTmodes(ptbr), func[..], priority[..], joinable[..],
         threadNum, defaultSoftSlotId, running)
    }

    constructor ()
      ensures Valid() && fresh(func) && fresh(priority) && fresh(joinable)
    {
      badvaddr := SetSlots(ResetSlots());
      ptbr := SetTmodes(ResetModes());
      func := new bool[HW_THREADS](i => i == 0);
      priority := new int[HW_THREADS](i => if i == 0 then REALTIME else 0);
      joinable := new bool[HW_THREADS](i => false);
      threadNum := 1;
      defaultSoftSlotId := -1;
      running := false;
    }

    /** set_slot_num. */
    method SetSlotNum(tid: nat, count: int) returns (status: Status)
      requires tid < 16 && tid != SLOT_D
      modifies `badvaddr
      ensures GetSlots(badvaddr) == WithSlotNum(old(GetSlots(badvaddr)), tid, count)
      ensures status == OsOK <==> SlotTable.SetSlotNum(old(GetSlots(badvaddr)), tid, count).1 == Ok
    {
      ghost var s := GetSlots(badvaddr);
      var slots := new nat[HW_THREADS](i requires 0 <= i < 8 reads this => GetSlots(badvaddr)[i]);
      assert slots[..] == s;
      var activeCount, threadCount := 0, 0;
      var i := 0;
      while i < HW_THREADS
        invariant 0 <= i <= HW_THREADS
        invariant slots[..] == s && badvaddr == old(badvaddr)
        invariant Count(s, tid) == threadCount + Count(s[i..], tid)
        invariant HW_THREADS - Count(s, SLOT_D) == activeCount + (HW_THREADS - i) - Count(s[i..], SLOT_D)
      {
        assert slots[i] == s[i] && s[i..][0] == s[i] && s[i..][1..] == s[i + 1..];
        if slots[i] == tid {
          activeCount := activeCount + 1;
          threadCount := threadCount + 1;
        } else if slots[i] != SLOT_D {
          activeCount := activeCount + 1;
        }
        i := i + 1;
      }
      if count == threadCount {
        return OsOK;
      } else if count > threadCount {
        var slotToBeAdded := count - threadCount;
        if activeCount + slotToBeAdded > HW_THREADS - 1 {
          return OsError;
        }
        Rewrite(slots, SLOT_D, tid, slotToBeAdded);
      } else {
        Rewrite(slots, tid, SLOT_D, threadCount - count);
      }
      CodesStay(s, tid, count);
      badvaddr := SetSlots(slots[..]);
      GetSetSlots(slots[..]);
      return OsOK;
    }

    /** The two rewriting loops of set_slot_num: turn entries a into b until k are done. */
    method Rewrite(slots: array<nat>, a: nat, b: nat, k: int)
      requires slots.Length == HW_THREADS && a != b && k > 0
      modifies slots
      ensures slots[..] == ReplaceFirst(old(slots[..]), a, b, k)
    {
      ghost var whole := ReplaceFirst(slots[..], a, b, k);
      var left := k;
      var i := 0;
      assert slots[0..] == slots[..] == [] + slots[..];
      while i < HW_THREADS
        invariant 0 <= i <= HW_THREADS && left > 0
        invariant whole == slots[..i] + ReplaceFirst(slots[i..], a, b, left)
      {
        var hit := TurnOne(slots, i, a, b, left, whole);
        if hit {
          left := left - 1;
          if left == 0 {
            break;
          }
        }
        i := i + 1;
      }
    }

    /** One entry of it. */
    method TurnOne(slots: array<nat>, i: nat, a: nat, b: nat, ghost left: nat, ghost whole: seq<nat>)
      returns (hit: bool)
      requires i < slots.Length && left > 0 && whole == slots[..i] + ReplaceFirst(slots[i..], a, b, left)
      modifies slots
      ensures hit && left == 1 ==> slots[..] == whole
      ensures whole == slots[..i + 1] + ReplaceFirst(slots[i + 1..], a, b, if hit then left - 1 else left)
    {
      ghost var done, rest := slots[..i], slots[i..];
      ReplaceNext(whole, done, rest, a, b, left);
      hit := slots[i] == a;
      if hit {
        slots[i] := b;
      }
      assert slots[..i + 1] == done + [if hit then b else rest[0]] && slots[i + 1..] == rest[1..];
      assert slots[..] == slots[..i + 1] + slots[i + 1..];
    }

    /** The counting loop shared by the slot-changing calls: is any thread but tid soft and alive? */
    method CountOtherSoft(tid: nat) returns (res: nat)
      requires Valid() && tid < HW_THREADS
      ensures res != 0 <==> Abs().OtherLiveSoft(tid)
    {
      var tmodes := GetTmodes(ptbr);
      ghost var os := Abs();
      res := 0;
      var i := 0;
      while i < HW_THREADS
        invariant 0 <= i <= HW_THREADS
        invariant res != 0 <==> exists j :: 0 <= j < i && j != tid && os.LiveSoft(j)
      {
        if i != tid && (tmodes[i] == TMODE_SA || tmodes[i] == TMODE_SZ) {
          if func[i] {
            assert os.LiveSoft(i);
            res := res + 1;
          }
        }
        i := i + 1;
      }
    }

    /** The counting loop over the slots: how many belong to tid, how many are soft. */
    method CountSlots(tid: nat) returns (threadCount: nat, softCount: nat)
      requires tid != SLOT_S
      ensures threadCount == Count(GetSlots(badvaddr), tid)
      ensures softCount == Count(GetSlots(badvaddr), SLOT_S)
    {
      var s := GetSlots(badvaddr);
      threadCount, softCount := 0, 0;
      var i := 0;
      while i < HW_THREADS
        invariant 0 <= i <= HW_THREADS
        invariant Count(s, tid) == threadCount + Count(s[i..], tid)
        invariant Count(s, SLOT_S) == softCount + Count(s[i..], SLOT_S)
      {
        assert s[i..][0] == s[i] && s[i..][1..] == s[i + 1..];
        if s[i] == tid {
          threadCount := threadCount + 1;
        } else if s[i] == SLOT_S {
          softCount := softCount + 1;
        }
        i := i + 1;
      }
    }

    /** set_thread_mode: one CSR write a bit. */
    method SetThreadMode(tid: nat, tmode: int)
      requires tid < HW_THREADS
      modifies `ptbr
      ensures ptbr == Registers.SetThreadMode(old(ptbr), tid, tmode)
      ensures GetTmodes(ptbr) == WithMode(old(GetTmodes(ptbr)), tid, tmode)
    {
      ghost var r := ptbr;
      var hbit, lbit := HBit(tid), LBit(tid);
      if tmode == TMODE_HARD {
        ptbr := ClearCsr(ptbr, hbit);
      } else if tmode == TMODE_SOFT {
        ptbr := SetCsr(ptbr, hbit);
      } else if tmode == TMODE_ACTIVE {
        ptbr := ClearCsr(ptbr, lbit);
      } else if tmode == TMODE_ZOMBIE {
        ptbr := SetCsr(ptbr, lbit);
      } else if tmode == TMODE_SZ {
        ptbr := SetCsr(ptbr, hbit);
        ptbr := SetCsr(ptbr, lbit);
      } else if tmode == TMODE_SA {
        ptbr := SetCsr(ptbr, hbit);
        ptbr := ClearCsr(ptbr, lbit);
      } else if tmode == TMODE_HZ {
        ptbr := ClearCsr(ptbr, hbit);
        ptbr := SetCsr(ptbr, lbit);
      } else if tmode == TMODE_HA {
        ptbr := ClearCsr(ptbr, hbit);
        ptbr := ClearCsr(ptbr, lbit);
      }
      ModeStored(r, tid, tmode);
    }

    /** osSchedulerGetFreq: the packed counts of a thread's slots, the soft slots and the active slots. */
    method OsSchedulerGetFreq(tid: nat) returns (res: Word)
      requires tid < HW_THREADS
      ensures ThreadFreq(res) == Count(GetSlots(badvaddr), tid)
      ensures SoftSlotCount(res) == Count(GetSlots(badvaddr), SLOT_S)
      ensures AllSlotCount(res) == HW_THREADS - Count(GetSlots(badvaddr), SLOT_D)
    {
      var s := GetSlots(badvaddr);
      var softCount, activeCount, threadCount := 0, 0, 0;
      var i := 0;
      while i < HW_THREADS
        invariant 0 <= i <= HW_THREADS
        invariant 0 <= softCount <= i && 0 <= threadCount <= i && 0 <= activeCount <= i
        invariant Count(s, tid) == threadCount + Count(s[i..], tid)
        invariant Count(s, SLOT_S) == softCount + Count(s[i..], SLOT_S)
        invariant HW_THREADS - Count(s, SLOT_D) == activeCount + (HW_THREADS - i) - Count(s[i..], SLOT_D)
      {
        assert s[i..][0] == s[i] && s[i..][1..] == s[i + 1..];
        if s[i] == tid {
          threadCount := threadCount + 1;
        } else if s[i] == SLOT_S {
          softCount := softCount + 1;
        }
        if s[i] != SLOT_D {
          activeCount := activeCount + 1;
        }
        i := i + 1;
      }
      res := PackFreq(threadCount, softCount, activeCount);
      UnpackFreq(threadCount, softCount, activeCount);
    }

    method SrttTerminate(tid: nat)
      requires Valid() && tid < HW_THREADS
      modifies `badvaddr
      ensures Valid() && Abs() == KernelSpec.SrttTerminate(old(Abs()), tid)
    {
      var res := CountOtherSoft(tid);
      var _ := SetSlotNum(tid, 0);
      if res == 0 {
        var _ := SetSlotNum(SLOT_S, 0);
      }
    }

    method ChangeSrttToHrtt(tid: nat)
      requires Valid() && tid < HW_THREADS
      modifies `badvaddr, `ptbr
      ensures Valid() && Abs() == KernelSpec.ChangeSrttToHrtt(old(Abs()), tid)
    {
      var threadCount, softCount := CountSlots(tid);
      var srttNum := CountOtherSoft(tid);
      if threadCount == 0 {
        var _ := SetSlotNum(tid, 1);
      }
      SetThreadMode(tid, TMODE_HARD);
      if srttNum == 0 && softCount != 0 {
        var _ := SetSlotNum(SLOT_S, 0);
      }
    }

    method ChangeHrttToSrtt(tid: nat)
      requires Valid() && tid < HW_THREADS
      modifies `badvaddr, `ptbr
      ensures Valid() && Abs() == KernelSpec.ChangeHrttToSrtt(old(Abs()), tid)
    {
      var threadCount, softCount := CountSlots(tid);
      var srttNum := CountOtherSoft(tid);
      if srttNum == 0 && softCount == 0 {
        var _ := SetSlotNum(SLOT_S, 1);
      }
      SetThreadMode(tid, TMODE_SOFT);
      if threadCount != 0 {
        var _ := SetSlotNum(tid, 0);
      }
    }

    method ThreadAfterCreate(tid: nat)
      requires Valid() && tid < HW_THREADS
      modifies `badvaddr, `ptbr
      ensures Valid() && Abs() == KernelSpec.ThreadAfterCreate(old(Abs()), tid)
    {
      if priority[tid] == REALTIME {
        SetThreadMode(tid, TMODE_HA);
        var _ := SetSlotNum(tid, 1);
      } else if priority[tid] == NORMAL {
        SetThreadMode(tid, TMODE_SA);
        var softCount := 0;
        if func[tid] {
          var _, n := CountSlots(tid);
          softCount := n;
        }
        if softCount == 0 {
          var _ := SetSlotNum(SLOT_S, 1);
        }
      }
    }

    /** thread_terminate after its cleaning; the loop runs again only to use the priority it has just
        read off the thread's mode. */
    method ThreadTerminate(tid: nat)
      requires Valid() && tid < HW_THREADS
      modifies `badvaddr, `ptbr
      ensures Valid() && Abs() == KernelSpec.ThreadTerminate(old(Abs()), tid)
    {
      ghost var os := Abs();
      var prior := priority[tid];
      var again := true;
      while again
        invariant Valid() && ptbr == old(ptbr)
        invariant again ==> badvaddr == old(badvaddr)
        invariant again && prior != priority[tid] ==>
          priority[tid] != NORMAL && priority[tid] != REALTIME
          && prior == if Soft(os.modes[tid]) then NORMAL else REALTIME
        invariant !again ==>
                    Abs().(modes := WithMode(Abs().modes, tid, TMODE_ZOMBIE)) == KernelSpec.ThreadTerminate(os, tid)
        decreases if again then 1 else 0, if prior == NORMAL || prior == REALTIME then 0 else 1
      {
        if prior == NORMAL {
          SrttTerminate(tid);
          again := false;
        } else if prior == REALTIME {
          var _ := SetSlotNum(tid, 0);
          again := false;
        } else {
          var tmode := GetTmodes(ptbr)[tid];
          if tmode == TMODE_HA || tmode == TMODE_HZ {
            prior := REALTIME;
          } else if tmode == TMODE_SA || tmode == TMODE_SZ {
            prior := NORMAL;
          } else {
            assert false;  // two mode bits have only these four codes: "Bad priority" is never reported
          }
        }
      }
      SetThreadMode(tid, TMODE_ZOMBIE);
    }

    method OsThreadNew(attr: Attr) returns (tid: int)
      requires Valid()
      modifies this, func, priority, joinable
      ensures Valid() && Abs() == KernelSpec.OsThreadNew(old(Abs()), attr)
      ensures tid == if Abs().num == old(threadNum) then -1 else old(threadNum)
    {
      if threadNum == HW_THREADS {
        return -1;
      }
      if attr.Attr? && attr.priority != REALTIME && attr.priority != NORMAL {
        return -1;
      }
      tid := threadNum;
      threadNum := threadNum + 1;
      if attr == None {
        priority[tid] := NORMAL;
        joinable[tid] := false;
      } else {
        priority[tid] := attr.priority;
        joinable[tid] := attr.joinable;
      }
      func[tid] := true;
      if running {
        ThreadAfterCreate(tid);
      }
    }

    method OsThreadSetPriority(tid: nat, prio: int) returns (status: Status)
      requires Valid() && tid < threadNum
      modifies `badvaddr, `ptbr, priority
      ensures Valid() && Abs() == KernelSpec.OsThreadSetPriority(old(Abs()), tid, prio)
      ensures status == OsOK <==> old(priority[tid]) == prio || prio == REALTIME || prio == NORMAL
    {
      if priority[tid] == prio {
        return OsOK;
      }
      if prio == REALTIME {
        ChangeSrttToHrtt(tid);
        priority[tid] := REALTIME;
      } else if prio == NORMAL {
        ChangeHrttToSrtt(tid);
        priority[tid] := NORMAL;
      } else {
        return OsError;
      }
      return OsOK;
    }

    /** Any of the calls; what each does to the state is its function in KernelSpec. */
    method Call(c: KernelSpec.Call)
      requires Valid() && KernelSpec.Valid(Abs(), c)
      modifies this, func, priority, joinable
      ensures Valid() && Abs() == Apply(old(Abs()), c)
      ensures forall i :: 0 <= i < HW_THREADS ==>
                (func[i] <==> Creates(old(Abs()), c, i)
                              || (old(func[i]) && !((c.Exit? || c.Terminate?) && c.tid == i)))
    {
      AllLives(Abs(), c);
      match c
      case New(attr) => var _ := OsThreadNew(attr);
      case SetPriority(tid, p) => var _ := OsThreadSetPriority(tid, p);
      case Suspend(tid) => SetThreadMode(tid, TMODE_ZOMBIE);
      case Resume(tid) => SetThreadMode(tid, TMODE_ACTIVE);
      case Exit(tid) => func[tid] := false;
      case Join(tid) => if joinable[tid] && !func[tid] { ThreadTerminate(tid); }
      case JoinAllVisit(tid) => if !func[tid] { ThreadTerminate(tid); }
      case Terminate(tid) =>
        func[tid] := false;
        ThreadTerminate(tid);
    }

    /** The table-filling loop of osKernelStart. */
    method StartTables(ghost os: Os, slots: array<nat>, modes: array<nat>)
      requires Valid() && os == Abs() && slots.Length == modes.Length == HW_THREADS && slots != modes
      requires slots !in {func as object, priority, joinable} && modes !in {func as object, priority, joinable}
      modifies slots, modes, `defaultSoftSlotId
      ensures slots[..] == StartSlots(os) && modes[..] == StartModes(os)
      ensures defaultSoftSlotId == SoftIdAfter(os, HW_THREADS)
    {
      slots[0], modes[0] := 0, TMODE_HA;
      var i := 1;
      while i < HW_THREADS
        invariant 1 <= i <= HW_THREADS
        invariant os.func == func[..] && os.priority == priority[..]
        invariant forall j :: 0 <= j < i ==> slots[j] == StartSlot(os, j) && modes[j] == StartMode(os, j)
        invariant defaultSoftSlotId == SoftIdAfter(os, i)
      {
        if func[i] {
          if priority[i] == REALTIME {
            modes[i] := TMODE_HA;
            slots[i] := i;
          } else if priority[i] == NORMAL {
            modes[i] := TMODE_SA;
            if defaultSoftSlotId == -1 {
              slots[i] := SLOT_S;
              defaultSoftSlotId := i;
            } else {
              slots[i] := SLOT_D;
            }
          } else {
            modes[i] := TMODE_SZ;
            slots[i] := SLOT_D;
          }
        } else {
          slots[i] := SLOT_D;
          modes[i] := TMODE_SZ;
        }
        i := i + 1;
      }
    }

    /** osKernelReset: the two register constants (0xfffffff0 is all bits but the low four) and the tables. */
    method OsKernelReset(prios: seq<int>, joins: seq<bool>)
      requires Valid() && |prios| == |joins| == HW_THREADS
      modifies this, func, priority, joinable
      ensures Valid() && Abs() == KernelSpec.OsKernelReset(old(Abs()), prios, joins)
      ensures forall i :: 0 <= i < HW_THREADS ==>
                (!Zombie(GetTmodes(ptbr)[i]) <==> i == 0) && !Soft(GetTmodes(ptbr)[i]) && (i > 0 ==> !func[i])
    {
      ghost var os := Abs();
      badvaddr := Not(OfNat(0xF));
      ptbr := ResetTmodes();
      ResetRegisters();
      StopThreads();
      threadNum := 1;
      defaultSoftSlotId := -1;
      OwnRecords(prios, joins);
      running := false;
      forall i | 0 <= i < HW_THREADS ensures (!Zombie(ResetModes()[i]) <==> i == 0) && !Soft(ResetModes()[i]) {
        ResetExactly(os, prios, joins, i);
      }
    }

    method StopThreads()
      requires Valid()
      modifies func
      ensures func[..] == seq(HW_THREADS, i requires 0 <= i < 8 => i == 0 && old(func[0]))
    {
      for i := 1 to HW_THREADS
        invariant func[0] == old(func[0]) && forall j :: 1 <= j < i ==> !func[j]
      {
        func[i] := false;
      }
    }

    /** The part of osKernelInitialize that gives every thread the kernel's own attribute record. */
    method OwnRecords(prios: seq<int>, joins: seq<bool>)
      requires Valid() && |prios| == |joins| == HW_THREADS
      modifies priority, joinable
      ensures priority[..] == prios[0 := REALTIME] && joinable[..] == joins[0 := false]
      ensures func[..] == old(func[..])
    {
      for i := 0 to HW_THREADS
        invariant forall j :: 0 <= j < i ==> priority[j] == prios[j] && joinable[j] == joins[j]
      {
        priority[i], joinable[i] := prios[i], joins[i];
      }
      priority[0], joinable[0] := REALTIME, false;
    }

    /** set_slots and set_tmodes. */
    method StoreTables(slots: Slots, modes: Modes)
      modifies `badvaddr, `ptbr
      ensures GetSlots(badvaddr) == slots && GetTmodes(ptbr) == modes
    {
      badvaddr := SetSlots(slots);
      ptbr := SetTmodes(modes);
      GetSetSlots(slots);
      GetSetTmodes(modes);
    }

    method OsKernelStart()
      requires Valid()
      modifies `badvaddr, `ptbr, `defaultSoftSlotId, `running
      ensures Valid() && Abs() == KernelSpec.OsKernelStart(old(Abs()))
      ensures forall i :: 0 <= i < HW_THREADS ==>
                var supported := priority[i] == REALTIME || priority[i] == NORMAL;
                && (!Zombie(GetTmodes(ptbr)[i]) <==> i == 0 || (func[i] && supported))
                && (i > 0 && func[i] && supported ==> (Soft(GetTmodes(ptbr)[i]) <==> priority[i] == NORMAL))
    {
      ghost var os := Abs();
      var slots, modes := new nat[HW_THREADS], new nat[HW_THREADS];
      StartTables(os, slots, modes);
      StoreTables(slots[..], modes[..]);
      running := true;
      assert GetSlots(badvaddr) == StartSlots(os) && GetTmodes(ptbr) == StartModes(os);
      assert func[..] == os.func && priority[..] == os.priority && joinable[..] == os.joinable;
      AllStarted(os);
    }
  }

  lemma AllStarted(os: Os)
    requires os.Shape()
    ensures forall i :: 0 <= i < HW_THREADS ==>
              && (!Zombie(StartModes(os)[i]) <==> i == 0 || Startable(os, i))
              && (i > 0 && Startable(os, i) ==> (Soft(StartModes(os)[i]) <==> os.priority[i] == NORMAL))
  {
    forall i | 0 <= i < HW_THREADS
      ensures !Zombie(StartModes(os)[i]) <==> i == 0 || Startable(os, i)
      ensures i > 0 && Startable(os, i) ==> (Soft(StartModes(os)[i]) <==> os.priority[i] == NORMAL)
    {
      StartModesExactly(os, i);
    }
  }

  lemma AllLives(os: Os, c: KernelSpec.Call)
    requires os.Shape() && KernelSpec.Valid(os, c)
    ensures |Apply(os, c).func| == HW_THREADS
    ensures forall i :: 0 <= i < HW_THREADS ==>
              (Apply(os, c).func[i] <==>
                 Creates(os, c, i) || (os.func[i] && !((c.Exit? || c.Terminate?) && c.tid == i)))
  {
    forall i | 0 <= i < HW_THREADS
      ensures |Apply(os, c).func| == HW_THREADS
      ensures Apply(os, c).func[i] <==>
                Creates(os, c, i) || (os.func[i] && !((c.Exit? || c.Terminate?) && c.tid == i))
    {
      LivesExactly(os, c, i);
    }
  }

  /** 0x55555554. */
  function ResetTmodes(): Word {
    seq(32, i requires 0 <= i < 32 => i % 2 == 0 && i != 0)
  }

  lemma ResetRegisters()
    ensures GetSlots(Not(OfNat(0xF))) == ResetSlots() && GetTmodes(ResetTmodes()) == ResetModes()
  {
    forall i | 0 <= i < 8 ensures GetSlots(Not(OfNat(0xF)))[i] == ResetSlots()[i] {
      var w := And(Shr(Not(OfNat(0xF)), 4 * i), OfNat(0xF));
      forall b | 0 <= b < 4 ensures w[b] == Bit(ResetSlots()[i], b) {}
      Low4OfNat(ResetSlots()[i], w);
    }
  }

  lemma ModeStored(r: Word, tid: nat, tmode: int)
    requires tid < 8
    ensures GetTmodes(Registers.SetThreadMode(r, tid, tmode)) == WithMode(GetTmodes(r), tid, tmode)
  {
    SetThreadModeMeaning(r, tid, tmode);
  }
}
