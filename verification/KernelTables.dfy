/** What each call, the start and the reset leave in the tables, entry by entry. */
module KernelTables {
  import opened Registers
  import opened SlotTable
  import opened KernelSpec

  predicate Names(c: Call, tid: nat) { !c.New? && c.tid == tid }

  predicate Accepts(os: Os, attr: Attr)
    requires os.Shape()
  {
    os.num < HW_THREADS && (attr.None? || attr.priority == REALTIME || attr.priority == NORMAL)
  }

  /** The call creates thread i. */
  predicate Creates(os: Os, c: Call, i: nat)
    requires os.Shape()
  {
    c.New? && Accepts(os, c.attr) && i == os.num
  }

  /** The call reaches thread_terminate. */
  predicate Closes(os: Os, c: Call)
    requires os.Shape() && Valid(os, c)
  {
    c.Terminate? || (c.Join? && os.joinable[c.tid] && !os.func[c.tid]) || (c.JoinAllVisit? && !os.func[c.tid])
  }

  /** The call reaches change_srtt_to_hrtt or change_hrtt_to_srtt. */
  predicate Reprioritises(os: Os, c: Call)
    requires os.Shape() && Valid(os, c)
  {
    c.SetPriority? && os.priority[c.tid] != c.priority && (c.priority == REALTIME || c.priority == NORMAL)
  }

  // ---------- one call ----------

  /** Who lives after a call: a thread comes to life only by its creation and ends only by its own exit or
      a terminate. */
  lemma LivesExactly(os: Os, c: Call, i: nat)
    requires os.Shape() && Valid(os, c) && i < HW_THREADS
    ensures Apply(os, c).Shape()
    ensures Apply(os, c).func[i] <==>
              || (c.New? && i == os.num && (c.attr.None? || c.attr.priority == REALTIME || c.attr.priority == NORMAL))
              || (os.func[i] && !((c.Exit? || c.Terminate?) && c.tid == i))
  {
  }

  /** A creation gives its thread the attributes asked for, normal and detached without any; a supported
      priority call changes the priority it names; nothing else is written. */
  lemma AttributesExactly(os: Os, c: Call, i: nat)
    requires os.Shape() && Valid(os, c) && i < HW_THREADS
    ensures var os' := Apply(os, c);
            && os'.Shape() && os'.running == os.running && os'.softId == os.softId
            && os'.num == os.num + (if Creates(os, c, os.num) then 1 else 0)
            && os'.priority[i] == (if Creates(os, c, i) then (if c.attr.None? then NORMAL else c.attr.priority)
                                   else if c.SetPriority? && c.tid == i
                                           && (c.priority == REALTIME || c.priority == NORMAL) then c.priority
                                   else os.priority[i])
            && os'.joinable[i] == (if Creates(os, c, i) then c.attr.Attr? && c.attr.joinable else os.joinable[i])
  {
  }

  lemma WrittenMode(t: Modes, tid: nat, tmode: int, i: nat)
    requires tid < HW_THREADS && i < HW_THREADS
    ensures var m, m' := t[i], WithMode(t, tid, tmode)[i];
            && (i != tid ==> m' == m)
            && (i == tid && tmode == TMODE_HARD ==> !Soft(m') && Zombie(m') == Zombie(m))
            && (i == tid && tmode == TMODE_SOFT ==> Soft(m') && Zombie(m') == Zombie(m))
            && (i == tid && tmode == TMODE_ACTIVE ==> !Zombie(m') && Soft(m') == Soft(m))
            && (i == tid && tmode == TMODE_ZOMBIE ==> Zombie(m') && Soft(m') == Soft(m))
  {
  }

  /** A write of these modes to thread tid, or none. */
  lemma ModesWritten(os: Os, c: Call)
    requires os.Shape() && Valid(os, c) && !c.New?
    ensures Apply(os, c).modes ==
              if c.Suspend? || Closes(os, c) then WithMode(os.modes, c.tid, TMODE_ZOMBIE)
              else if c.Resume? then WithMode(os.modes, c.tid, TMODE_ACTIVE)
              else if Reprioritises(os, c) then
                WithMode(os.modes, c.tid, if c.priority == REALTIME then TMODE_HARD else TMODE_SOFT)
              else os.modes
  {
  }

  lemma NewModes(os: Os, c: Call, i: nat)
    requires os.Shape() && c.New? && i < HW_THREADS
    ensures var m, m' := os.modes[i], Apply(os, c).modes[i];
            if Creates(os, c, i) && os.running
            then !Zombie(m') && (Soft(m') <==> c.attr.None? || c.attr.priority == NORMAL)
            else m' == m
  {
  }

  /** Who is asleep and who is soft after a call: suspending, joining or terminating puts the thread to
      sleep, resuming or creating it in a running kernel wakes it; that creation and a new priority decide
      the soft bit; nobody else is touched. */
  lemma ModesExactly(os: Os, c: Call, i: nat)
    requires os.Shape() && Valid(os, c) && i < HW_THREADS
    ensures var m, m' := os.modes[i], Apply(os, c).modes[i];
            && (Zombie(m') <==>
                  if Creates(os, c, i) then Zombie(m) && !os.running
                  else if Names(c, i) then c.Suspend? || Closes(os, c) || (Zombie(m) && !c.Resume?)
                  else Zombie(m))
            && (Soft(m') <==>
                  if Creates(os, c, i) && os.running then c.attr.None? || c.attr.priority == NORMAL
                  else if Names(c, i) && Reprioritises(os, c) then c.priority == NORMAL
                  else Soft(m))
  {
    if c.New? {
      NewModes(os, c, i);
    } else {
      ModesWritten(os, c);
      WrittenMode(os.modes, c.tid, TMODE_ZOMBIE, i);
      WrittenMode(os.modes, c.tid, TMODE_ACTIVE, i);
      WrittenMode(os.modes, c.tid, TMODE_HARD, i);
      WrittenMode(os.modes, c.tid, TMODE_SOFT, i);
    }
  }

  // ---------- osKernelStart and osKernelReset ----------

  /** Thread i takes part in a start: it lives and its priority is a supported one. */
  predicate Startable(os: Os, i: nat)
    requires os.Shape() && i < HW_THREADS
  {
    os.func[i] && (os.priority[i] == REALTIME || os.priority[i] == NORMAL)
  }

  /** After osKernelStart exactly thread 0 and the live threads of a supported priority are awake, the hard
      ones are thread 0 and the live realtime ones, and nothing but slots and modes has changed. */
  lemma StartModesExactly(os: Os, i: nat)
    requires os.Shape() && i < HW_THREADS
    ensures var os' := OsKernelStart(os);
            && (!Zombie(os'.modes[i]) <==> i == 0 || Startable(os, i))
            && (!Soft(os'.modes[i]) <==> i == 0 || (os.func[i] && os.priority[i] == REALTIME))
            && (i > 0 && Startable(os, i) ==> (Soft(os'.modes[i]) <==> os.priority[i] == NORMAL))
            && os'.func == os.func && os'.priority == os.priority && os'.joinable == os.joinable
            && os'.num == os.num && os'.running
  {
  }

  /** No soft thread above 0 stands before i. */
  predicate NoSoftBefore(os: Os, i: nat)
    requires os.Shape() && i <= HW_THREADS
  {
    forall j :: 0 < j < i ==> !(os.func[j] && os.priority[j] == NORMAL)
  }

  lemma {:induction false} SoftIdBefore(os: Os, i: nat)
    requires os.Shape() && i <= HW_THREADS
    ensures SoftIdAfter(os, i) == -1 <==> os.softId == -1 && NoSoftBefore(os, i)
  {
    if i > 0 { SoftIdBefore(os, i - 1); }
  }

  /** Its slots: thread 0's first, each live realtime thread its own, one SOFT slot at the first live normal
      thread if none is remembered, and every other slot disabled. */
  lemma StartSlotsExactly(os: Os, i: nat)
    requires os.Shape() && i < HW_THREADS
    ensures OsKernelStart(os).slots[i] ==
              if i == 0 || (os.func[i] && os.priority[i] == REALTIME) then i
              else if os.func[i] && os.priority[i] == NORMAL && os.softId == -1 && NoSoftBefore(os, i) then 14
              else 15
  {
    SoftIdBefore(os, i);
  }

  /** After osKernelReset thread 0 is awake, hard and in slot 0; the others are asleep, hard, ended and
      without a slot. */
  lemma ResetExactly(os: Os, prios: seq<int>, joins: seq<bool>, i: nat)
    requires os.Shape() && |prios| == |joins| == HW_THREADS && i < HW_THREADS
    ensures var os' := OsKernelReset(os, prios, joins);
            && (!Zombie(os'.modes[i]) <==> i == 0) && !Soft(os'.modes[i])
            && os'.slots[i] == (if i == 0 then 0 else 15)
            && (os'.func[i] <==> i == 0 && os.func[0])
            && os'.num == 1 && os'.softId == -1 && !os'.running
            && os'.priority[i] == (if i == 0 then REALTIME else prios[i])
            && os'.joinable[i] == (i > 0 && joins[i])
  {
  }
}
