/** One mutex of flexpret_mutex.c shared by hardware threads that run at the same time. Each access
    to the CSR, to owner, count or active is one step of one thread; the steps interleave freely. */
module MutexProtocol {
  import opened Numbers

  const WAIT_FOREVER: nat := 0xFFFF_FFFF
  const WAIT_PERIOD: nat := 10000
  const NOBODY: int := -1

  /** The shared fields; free means the CSR holds FLEXPRET_MUTEX_ACTIVE. */
  datatype Mutex = Mutex(free: bool, owner: int, count: int, active: bool, recursive: bool, robust: bool)

  /** Where a thread is. The comments give the access it makes next. */
  datatype Pc =
    | Idle
    | AcqActive(timeout: nat)            // read active
    | AcqSwap(timeout: nat)              // swap the CSR
    | AcqOwner                           // got it: read owner
    | AcqSetOwner                        // write owner
    | AcqSetCount                        // write count
    | AcqBad                             // "Bad mutex status": free the CSR again
    | AcqFailOwner(timeout: nat)         // did not get it: read owner
    | AcqIncRead                         // recursive: read count
    | AcqIncWrite(v: int)                // write count
    | AcqHow(timeout: nat)               // read ifSpin
    | WaitForever                        // swap the CSR
    | WaitSpin                           // swap the CSR, then look at the clock
    | WaitPoll(timeout: nat, all: nat)   // delay, swap the CSR, add the period up
    | RelActive                          // read active
    | RelNull                            // read owner
    | RelOwner                           // read owner again
    | RelDecRead                         // read count
    | RelDecWrite(v: int)                // write count
    | RelCount                           // read count
    | RelClear                           // owner = NULL
    | RelFree                            // free the CSR
    | CleanOwner(victim: nat)            // thread_clean's copy: read owner
    | CleanFlags(victim: nat, own: bool) // thread_clean's copy: read ifRobust and active
    | CleanFree(victim: nat)             // free the CSR

  datatype Result = None | OsOK | OsError | OsErrorParameter | OsErrorResource | OsErrorTimeout

  /** A stopped thread may be resumed or terminated; a leaving one runs its own thread_clean; a gone
      one never runs again. */
  datatype Status = Live | Stopped | Leaving | Gone

  /** depth counts the successful acquires not yet released; cleaned says that thread_clean has freed
      the CSR on the thread's behalf; last is what the last finished call returned. */
  datatype Thread = Thread(pc: Pc, depth: nat, status: Status, cleaned: bool, last: Result)

  /** flag remembers who swapped the CSR away last, NOBODY once it is freed. */
  datatype State = State(mutex: Mutex, threads: seq<Thread>, flag: int)

  datatype Event =
    | Acquire(t: nat, timeout: nat)
    | Release(t: nat)
    | Delete(t: nat)
    | Step(t: nat, choice: bool)        // choice: ifSpin's value, or that the time is not yet up
    | Stop(t: nat)
    | Resume(t: nat)
    | Exit(t: nat)
    | Terminate(t: nat, victim: nat)

  function Less(depth: nat): nat { if depth == 0 then 0 else depth - 1 }

  predicate Runs(th: Thread) { th.status == Live || th.status == Leaving }

  function Put(s: State, t: nat, th: Thread): State
    requires t < |s.threads|
  {
    s.(threads := s.threads[t := th])
  }

  function Goto(s: State, t: nat, pc: Pc): State
    requires t < |s.threads|
  {
    Put(s, t, s.threads[t].(pc := pc))
  }

  function Return(s: State, t: nat, r: Result): State
    requires t < |s.threads|
  {
    Put(s, t, s.threads[t].(pc := Idle, last := r))
  }

  /** Swap INACTIVE into the CSR: on success the flag is t's. */
  function Swapped(s: State, t: nat): State {
    s.(mutex := s.mutex.(free := false), flag := if s.mutex.free then t else s.flag)
  }

  function Freed(s: State): State { s.(mutex := s.mutex.(free := true), flag := NOBODY) }

  function Period(timeout: nat): nat { if timeout > WAIT_PERIOD then WAIT_PERIOD else timeout }

  /** all_time += time_period, in 32 bits. */
  function AddTime(all: nat, timeout: nat): nat { (all + Period(timeout)) % UINT32 }

  /** thread_clean for victim is over, and thread_terminate's zombie write behind it: the victim is gone. */
  function Cleaned(s: State, t: nat, victim: nat): State
    requires t < |s.threads|
  {
    var s1 := Goto(s, t, Idle);
    if victim < |s.threads| then Put(s1, victim, s1.threads[victim].(status := Gone)) else s1
  }

  /** The accesses of osMutexAcquire. */
  function AdvanceAcquire(s: State, t: nat, choice: bool): State
    requires t < |s.threads|
  {
    var m := s.mutex;
    var th := s.threads[t];
    match th.pc
    case AcqActive(timeout) => if !m.active then Return(s, t, OsErrorParameter) else Goto(s, t, AcqSwap(timeout))
    case AcqSwap(timeout) =>
      if m.free then Goto(Swapped(s, t), t, AcqOwner) else Goto(Swapped(s, t), t, AcqFailOwner(timeout))
    case AcqOwner => if m.owner == NOBODY then Goto(s, t, AcqSetOwner) else Goto(s, t, AcqBad)
    case AcqSetOwner => Goto(s.(mutex := m.(owner := t)), t, AcqSetCount)
    case AcqSetCount => Put(s.(mutex := m.(count := 1)), t, th.(pc := Idle, depth := 1, last := OsOK))
    case AcqBad => Return(Freed(s), t, OsError)
    case AcqFailOwner(timeout) =>
      if m.owner == t && m.recursive then Goto(s, t, AcqIncRead)
      else if timeout == 0 then Return(s, t, OsErrorResource)
      else if timeout == WAIT_FOREVER then Goto(s, t, WaitForever)
      else Goto(s, t, AcqHow(timeout))
    case AcqIncRead => Goto(s, t, AcqIncWrite(m.count))
    case AcqIncWrite(v) => Put(s.(mutex := m.(count := v + 1)), t, th.(pc := Idle, depth := th.depth + 1, last := OsOK))
    case AcqHow(timeout) => Goto(s, t, if choice then WaitSpin else WaitPoll(timeout, 0))
    case WaitForever => if m.free then Goto(Swapped(s, t), t, AcqSetOwner) else Swapped(s, t)
    case WaitSpin =>
      if m.free then Goto(Swapped(s, t), t, AcqSetOwner)
      else if choice then Swapped(s, t)
      else Return(Swapped(s, t), t, OsErrorTimeout)
    case WaitPoll(timeout, all) =>
      if m.free then Goto(Swapped(s, t), t, AcqSetOwner)
      else if AddTime(all, timeout) < timeout then Goto(Swapped(s, t), t, WaitPoll(timeout, AddTime(all, timeout)))
      else Return(Swapped(s, t), t, OsErrorTimeout)
    case _ => s
  }

  /** The accesses of osMutexRelease. */
  function AdvanceRelease(s: State, t: nat): State
    requires t < |s.threads|
  {
    var m := s.mutex;
    var th := s.threads[t];
    match th.pc
    case RelActive => if !m.active then Return(s, t, OsErrorParameter) else Goto(s, t, RelNull)
    case RelNull => if m.owner == NOBODY then Return(s, t, OsErrorResource) else Goto(s, t, RelOwner)
    case RelOwner => if m.owner != t then Return(s, t, OsErrorResource) else Goto(s, t, RelDecRead)
    case RelDecRead => Goto(s, t, RelDecWrite(m.count))
    case RelDecWrite(v) =>
      Put(s.(mutex := m.(count := v - 1)), t, th.(pc := RelCount, depth := Less(th.depth)))
    case RelCount => if m.count == 0 then Goto(s, t, RelClear) else Return(s, t, OsOK)
    case RelClear => Goto(s.(mutex := m.(owner := NOBODY)), t, RelFree)
    case RelFree => Return(Freed(s), t, OsOK)
    case _ => s
  }

  /** The accesses of thread_clean. */
  function AdvanceClean(s: State, t: nat): State
    requires t < |s.threads|
  {
    var m := s.mutex;
    var th := s.threads[t];
    match th.pc
    case CleanOwner(v) => Goto(s, t, CleanFlags(v, m.owner == v))
    case CleanFlags(v, own) => if own && m.robust && m.active then Goto(s, t, CleanFree(v)) else Cleaned(s, t, v)
    case CleanFree(v) =>
      if v < |s.threads| then
        var s1 := Freed(Put(s, v, s.threads[v].(depth := 0, cleaned := true)));
        Cleaned(s1, t, v)
      else Cleaned(Freed(s), t, v)
    case _ => s
  }

  predicate ReleaseReads(pc: Pc) { pc.RelActive? || pc.RelNull? || pc.RelOwner? || pc.RelCount? }

  predicate ReleaseWrites(pc: Pc) { pc.RelDecRead? || pc.RelDecWrite? || pc.RelClear? || pc.RelFree? }

  predicate Releasing(pc: Pc) { ReleaseReads(pc) || ReleaseWrites(pc) }

  predicate Swaps(pc: Pc) { pc.AcqSwap? || pc.WaitForever? || pc.WaitSpin? || pc.WaitPoll? }

  predicate Retakes(pc: Pc) { pc.AcqFailOwner? || pc.AcqIncRead? || pc.AcqHow? }

  predicate Takes(pc: Pc) {
    pc.AcqActive? || pc.AcqOwner? || pc.AcqSetOwner? || pc.AcqSetCount? || pc.AcqBad?
  }

  function Advance(s: State, t: nat, choice: bool): State
    requires t < |s.threads|
  {
    var pc := s.threads[t].pc;
    if Releasing(pc) then AdvanceRelease(s, t)
    else if InClean(pc) then AdvanceClean(s, t)
    else AdvanceAcquire(s, t, choice)
  }

  /** An event that cannot happen changes nothing. A stopped victim is gone as soon as its terminate
      begins, because nobody resumes it then; any other one runs on until its cleanup is over. */
  function Fire(s: State, e: Event): State {
    if e.t >= |s.threads| || (!e.Stop? && !e.Resume? && !Runs(s.threads[e.t])) then s
    else
      var th := s.threads[e.t];
      var ready := th.pc == Idle && th.status == Live;
      match e
      case Acquire(t, timeout) => if ready && timeout <= WAIT_FOREVER then Goto(s, t, AcqActive(timeout)) else s
      case Release(t) => if ready then Goto(s, t, RelActive) else s
      case Delete(t) => if ready then s.(mutex := s.mutex.(active := false)) else s
      case Step(t, choice) => Advance(s, t, choice)
      case Stop(t) => if th.status == Live then Put(s, t, th.(status := Stopped)) else s
      case Resume(t) => if th.status == Stopped then Put(s, t, th.(status := Live)) else s
      case Exit(t) => if ready then Put(s, t, th.(pc := CleanOwner(t), status := Leaving)) else s
      case Terminate(t, v) => if ready && v < |s.threads| && v != t then Goto(Doomed(s, v), t, CleanOwner(v)) else s
  }

  function Doomed(s: State, v: nat): State
    requires v < |s.threads|
  {
    if s.threads[v].status == Stopped then Put(s, v, s.threads[v].(status := Gone)) else s
  }

  // ---------- the invariant ----------

  predicate Holding(pc: Pc) {
    pc.AcqOwner? || pc.AcqSetOwner? || pc.AcqSetCount? || pc.AcqBad? || pc.AcqIncRead? || pc.AcqIncWrite?
    || pc.RelDecRead? || pc.RelDecWrite? || pc.RelCount? || pc.RelClear? || pc.RelFree?
  }

  predicate InClean(pc: Pc) { pc.CleanOwner? || pc.CleanFlags? || pc.CleanFree? }

  predicate Cleaning(pc: Pc, v: nat) { InClean(pc) && pc.victim == v }

  /** owner names nobody, or a thread whose robust mutex was freed for it. */
  predicate NoOwner(s: State) {
    s.mutex.owner == NOBODY || (0 <= s.mutex.owner < |s.threads| && s.threads[s.mutex.owner].cleaned)
  }

  /** What owner and count are while h has the flag, by where h is. */
  predicate HolderOk(s: State, h: nat)
    requires h < |s.threads|
  {
    var m := s.mutex;
    var th := s.threads[h];
    !th.cleaned &&
    match th.pc
    case AcqOwner => th.depth == 0 && NoOwner(s)
    case AcqSetOwner => th.depth == 0 && NoOwner(s)
    case AcqBad => th.depth == 0 && NoOwner(s) && m.owner != NOBODY
    case AcqSetCount => th.depth == 0 && m.owner == h
    case RelClear => th.depth == 0 && m.owner == h && m.count == 0
    case RelFree => th.depth == 0 && m.owner == NOBODY
    case RelCount => m.owner == h && m.count == th.depth
    case RelDecWrite(v) => m.owner == h && v == m.count == th.depth > 0
    case AcqIncWrite(v) => m.owner == h && v == m.count == th.depth > 0
    case _ => m.owner == h && m.count == th.depth > 0
  }

  /** thread_clean by c for v frees the CSR, or will if nothing changes. */
  predicate Armed(s: State, c: nat, v: nat)
    requires c < |s.threads|
  {
    s.threads[c].pc.CleanFree? || (s.mutex.owner == v && s.mutex.robust && s.mutex.active)
  }

  /** The victim never runs on; an armed cleanup is the only one, and its victim has the flag. */
  ghost predicate CleaningOk(s: State, c: nat, v: nat)
    requires c < |s.threads|
  {
    && v < |s.threads|
    && (if c == v then s.threads[v].status == Leaving else s.threads[v].status == Gone)
    && (s.threads[c].pc.CleanFlags? && s.mutex.robust && s.mutex.active ==>
          (s.threads[c].pc.own <==> s.mutex.owner == v))
    && (Armed(s, c, v) ==>
          && s.flag == v && s.mutex.owner == v && !s.threads[v].cleaned
          && forall d :: 0 <= d < |s.threads| && Cleaning(s.threads[d].pc, v) && Armed(s, d, v) ==> d == c)
  }

  /** The CSR, the flag, owner and count agree. */
  ghost predicate Core(s: State) {
    && (s.mutex.free <==> s.flag == NOBODY)
    && (s.flag == NOBODY || 0 <= s.flag < |s.threads|)
    && (s.flag == NOBODY ==> NoOwner(s))
    && (s.flag != NOBODY ==> HolderOk(s, s.flag))
    && (forall t :: 0 <= t < |s.threads| && t != s.flag ==>
          s.threads[t].depth == 0 && (!s.threads[t].cleaned ==> !Holding(s.threads[t].pc)))
  }

  ghost predicate Inv(s: State) {
    && Core(s)
    && (forall t :: 0 <= t < |s.threads| ==>
          && (s.threads[t].cleaned ==> s.threads[t].status == Gone)
          && (s.threads[t].status == Leaving ==> Cleaning(s.threads[t].pc, t)))
    && (forall c, v :: 0 <= c < |s.threads| && Cleaning(s.threads[c].pc, v) ==> CleaningOk(s, c, v))
  }

  predicate Begins(pc: Pc) { pc.AcqActive? || pc == RelActive || pc.CleanOwner? }

  /** No access: places at rest become the begin of a call, and statuses change. */
  predicate NoAccess(s: State, s': State) {
    && s'.mutex == s.mutex.(active := s'.mutex.active) && s'.flag == s.flag && |s'.threads| == |s.threads|
    && forall t :: 0 <= t < |s.threads| ==>
         && s'.threads[t].depth == s.threads[t].depth && s'.threads[t].cleaned == s.threads[t].cleaned
         && (s'.threads[t].pc == s.threads[t].pc
             || (s.threads[t].pc == Idle && Begins(s'.threads[t].pc)))
  }

  lemma FireNoAccess(s: State, e: Event)
    requires !e.Step?
    ensures NoAccess(s, Fire(s, e))
  {
  }

  lemma CoreStays(s: State, s': State)
    requires Core(s) && NoAccess(s, s')
    ensures Core(s')
  {
    if s.flag != NOBODY { assert HolderOk(s, s.flag) && HolderOk(s', s.flag); }
  }

  /** Whom a terminate may name: a stopped thread, or one already gone that the mutex, as long as
      thread_clean would free it, does not name as its owner. */
  predicate MayClean(s: State, e: Event) {
    e.Terminate? && e.victim < |s.threads| ==>
      s.threads[e.victim].status == Stopped
      || (s.threads[e.victim].status == Gone && !(s.mutex.owner == e.victim && s.mutex.robust && s.mutex.active))
  }

  /** t moves without touching the mutex. */
  lemma LocalStep(s: State, t: nat, th: Thread)
    requires Inv(s) && t < |s.threads| && Runs(s.threads[t]) && s.threads[t].status == th.status
    requires th.depth == s.threads[t].depth && th.cleaned == s.threads[t].cleaned
    requires !InClean(s.threads[t].pc) && !InClean(th.pc)
    requires if s.flag == t then HolderOk(Put(s, t, th), t) else !Holding(th.pc)
    ensures Inv(Put(s, t, th))
  {
  }

  /** While a running thread outside thread_clean has the flag no cleanup frees the CSR. */
  lemma NoneArmed(s: State, t: nat)
    requires Inv(s) && t < |s.threads| && Runs(s.threads[t]) && s.flag == t && !InClean(s.threads[t].pc)
    ensures forall c, v :: 0 <= c < |s.threads| && Cleaning(s.threads[c].pc, v) ==> !Armed(s, c, v) && v != t
  {
    assert forall c, v :: 0 <= c < |s.threads| && Cleaning(s.threads[c].pc, v) ==> CleaningOk(s, c, v);
  }

  /** The thread with the flag writes owner or count. */
  lemma HolderStep(s: State, t: nat, m: Mutex, th: Thread)
    requires Inv(s) && t < |s.threads| && Runs(s.threads[t]) && s.threads[t].status == th.status && s.flag == t
    requires m == s.mutex.(owner := m.owner, count := m.count)
    requires m.owner == s.mutex.owner || m.owner == t || m.owner == NOBODY
    requires th.cleaned == s.threads[t].cleaned && !InClean(s.threads[t].pc) && !InClean(th.pc)
    requires HolderOk(Put(s.(mutex := m), t, th), t)
    ensures Inv(Put(s.(mutex := m), t, th))
  {
    var s' := Put(s.(mutex := m), t, th);
    NoneArmed(s, t);
    forall c, v | 0 <= c < |s.threads| && Cleaning(s'.threads[c].pc, v) ensures CleaningOk(s', c, v) {
      assert Cleaning(s.threads[c].pc, v) && CleaningOk(s, c, v) && !Armed(s, c, v);
      assert !Armed(s', c, v);
    }
  }

  /** t swaps the CSR. */
  lemma SwapStep(s: State, t: nat, th: Thread)
    requires Inv(s) && t < |s.threads| && Runs(s.threads[t]) && s.threads[t].status == th.status
    requires th.depth == s.threads[t].depth && th.cleaned == s.threads[t].cleaned
    requires !InClean(s.threads[t].pc) && !InClean(th.pc)
    requires if s.mutex.free then th.pc == AcqOwner || th.pc == AcqSetOwner
             else if s.flag == t then HolderOk(Put(s, t, th), t) else !Holding(th.pc)
    ensures Inv(Put(Swapped(s, t), t, th))
  {
    if s.mutex.free {
      var s' := Put(Swapped(s, t), t, th);
      assert HolderOk(s', t);
      forall c, v | 0 <= c < |s.threads| && Cleaning(s.threads[c].pc, v) ensures CleaningOk(s', c, v) {
        assert CleaningOk(s, c, v);
      }
    } else {
      assert Swapped(s, t) == s;
      LocalStep(s, t, th);
    }
  }

  /** The thread with the flag frees the CSR. */
  lemma FreeStep(s: State, t: nat, th: Thread)
    requires Inv(s) && t < |s.threads| && Runs(s.threads[t]) && s.threads[t].status == th.status && s.flag == t
    requires th.depth == 0 && th.cleaned == s.threads[t].cleaned && th.pc == Idle && NoOwner(s)
    requires !InClean(s.threads[t].pc)
    ensures Inv(Put(Freed(s), t, th))
  {
    forall c, v | 0 <= c < |s.threads| && Cleaning(s.threads[c].pc, v) ensures v != t {
      assert CleaningOk(s, c, v);
    }
  }

  /** Moving about in thread_clean, or out of it, is nothing to owner, count and flag. */
  lemma CleanerCore(s: State, t: nat, th: Thread)
    requires Core(s) && t < |s.threads| && InClean(s.threads[t].pc) && (InClean(th.pc) || th.pc == Idle)
    requires th.depth == s.threads[t].depth && th.cleaned == s.threads[t].cleaned
    ensures Core(Put(s, t, th))
  {
    var s' := Put(s, t, th);
    if s.flag != NOBODY { assert HolderOk(s, s.flag); }
  }

  /** thread_clean reads and goes on. */
  lemma CleanReadStep(s: State, t: nat, th: Thread, v: nat)
    requires Inv(s) && t < |s.threads| && Runs(s.threads[t]) && Cleaning(s.threads[t].pc, v)
    requires !s.threads[t].pc.CleanFree?
    requires th == s.threads[t].(pc := th.pc) && Cleaning(th.pc, v)
    requires th.pc.CleanFree? ==> s.mutex.owner == v && s.mutex.robust && s.mutex.active
    requires th.pc.CleanFlags? ==> (th.pc.own <==> s.mutex.owner == v)
    ensures Inv(Put(s, t, th))
  {
    var s' := Put(s, t, th);
    assert CleaningOk(s, t, v);
    CleanerCore(s, t, th);
    forall c, u | 0 <= c < |s.threads| && Cleaning(s'.threads[c].pc, u) ensures CleaningOk(s', c, u) {
      assert Cleaning(s.threads[c].pc, u) && CleaningOk(s, c, u);
      assert forall d :: 0 <= d < |s.threads| && Cleaning(s'.threads[d].pc, u) ==>
        Cleaning(s.threads[d].pc, u) && Armed(s', d, u) == Armed(s, d, u);
    }
  }

  /** thread_clean gives up: nothing to free. */
  lemma CleanGivesUp(s: State, t: nat, v: nat)
    requires Inv(s) && t < |s.threads| && Runs(s.threads[t]) && Cleaning(s.threads[t].pc, v)
    requires !s.threads[t].pc.CleanFree?
    requires !(s.mutex.owner == v && s.mutex.robust && s.mutex.active)
    ensures Inv(Cleaned(s, t, v))
  {
    var s' := Cleaned(s, t, v);
    assert CleaningOk(s, t, v);
    assert s' == Put(s, t, s.threads[t].(pc := Idle, status := if v == t then Gone else s.threads[t].status));
    CleanerCore(s, t, s'.threads[t]);
    forall c, u | 0 <= c < |s.threads| && Cleaning(s'.threads[c].pc, u) ensures CleaningOk(s', c, u) {
      assert Cleaning(s.threads[c].pc, u) && CleaningOk(s, c, u);
      assert forall d :: 0 <= d < |s.threads| && Cleaning(s'.threads[d].pc, u) ==>
        Cleaning(s.threads[d].pc, u) && Armed(s', d, u) == Armed(s, d, u);
    }
  }

  /** thread_clean frees the CSR for its victim, the thread with the flag. */
  lemma CleanFreeStep(s: State, t: nat)
    requires Inv(s) && t < |s.threads| && Runs(s.threads[t]) && s.threads[t].pc.CleanFree?
    ensures Inv(AdvanceClean(s, t))
  {
    var v := s.threads[t].pc.victim;
    var s' := AdvanceClean(s, t);
    assert Cleaning(s.threads[t].pc, v) && CleaningOk(s, t, v) && Armed(s, t, v);
    forall c, u | 0 <= c < |s.threads| && Cleaning(s'.threads[c].pc, u) ensures CleaningOk(s', c, u) {
      assert Cleaning(s.threads[c].pc, u) && CleaningOk(s, c, u);
      assert !Armed(s, c, u);
      assert !Armed(s', c, u);
    }
  }

  lemma CleanKeepsInv(s: State, t: nat, v: nat)
    requires Inv(s) && t < |s.threads| && Runs(s.threads[t]) && Cleaning(s.threads[t].pc, v)
    ensures Inv(AdvanceClean(s, t))
  {
    var th := s.threads[t];
    assert CleaningOk(s, t, v);
    match th.pc
    case CleanOwner(_) => CleanReadStep(s, t, th.(pc := CleanFlags(v, s.mutex.owner == v)), v);
    case CleanFlags(_, own) =>
      if own && s.mutex.robust && s.mutex.active {
        CleanReadStep(s, t, th.(pc := CleanFree(v)), v);
      } else {
        CleanGivesUp(s, t, v);
      }
    case CleanFree(_) => CleanFreeStep(s, t);
  }

  lemma NotOwner(s: State, t: nat)
    requires Inv(s) && t < |s.threads| && Runs(s.threads[t]) && s.flag != t
    ensures s.mutex.owner != t
  {
  }

  lemma TakeKeepsInv(s: State, t: nat, choice: bool)
    requires Inv(s) && t < |s.threads| && Runs(s.threads[t]) && Takes(s.threads[t].pc)
    ensures Inv(AdvanceAcquire(s, t, choice))
  {
    var m := s.mutex;
    var th := s.threads[t];
    match th.pc
    case AcqActive(timeout) =>
      LocalStep(s, t, if m.active then th.(pc := AcqSwap(timeout)) else th.(pc := Idle, last := OsErrorParameter));
    case AcqOwner => LocalStep(s, t, th.(pc := if m.owner == NOBODY then AcqSetOwner else AcqBad));
    case AcqSetOwner => HolderStep(s, t, m.(owner := t), th.(pc := AcqSetCount));
    case AcqSetCount => HolderStep(s, t, m.(count := 1), th.(pc := Idle, depth := 1, last := OsOK));
    case AcqBad => FreeStep(s, t, th.(pc := Idle, last := OsError));
  }

  lemma RetakeKeepsInv(s: State, t: nat, choice: bool)
    requires Inv(s) && t < |s.threads| && Runs(s.threads[t]) && Retakes(s.threads[t].pc)
    ensures Inv(AdvanceAcquire(s, t, choice))
  {
    if s.flag != t { NotOwner(s, t); }
    RetakeResult(s, t, choice);
    LocalStep(s, t, AdvanceAcquire(s, t, choice).threads[t]);
  }

  /** A thread that found the CSR taken goes on counting only as the owner of a recursive mutex. */
  lemma RetakeResult(s: State, t: nat, choice: bool)
    requires t < |s.threads|
    requires Retakes(s.threads[t].pc)
    ensures |AdvanceAcquire(s, t, choice).threads| == |s.threads|
    ensures var th' := AdvanceAcquire(s, t, choice).threads[t];
            && AdvanceAcquire(s, t, choice) == Put(s, t, th')
            && th'.depth == s.threads[t].depth && th'.cleaned == s.threads[t].cleaned
            && th'.status == s.threads[t].status
            && (th'.pc == Idle || th'.pc == WaitForever || th'.pc.AcqHow? || th'.pc == WaitSpin || th'.pc.WaitPoll?
                || (th'.pc == AcqIncRead && s.mutex.owner == t)
                || (th'.pc == AcqIncWrite(s.mutex.count) && s.threads[t].pc.AcqIncRead?))
  {
  }

  lemma CountUpKeepsInv(s: State, t: nat, choice: bool)
    requires Inv(s) && t < |s.threads| && Runs(s.threads[t]) && s.threads[t].pc.AcqIncWrite?
    ensures Inv(AdvanceAcquire(s, t, choice))
  {
    var th := s.threads[t];
    HolderStep(s, t, s.mutex.(count := th.pc.v + 1), th.(pc := Idle, depth := th.depth + 1, last := OsOK));
  }

  lemma SwapKeepsInv(s: State, t: nat, choice: bool)
    requires Inv(s) && t < |s.threads| && Runs(s.threads[t]) && Swaps(s.threads[t].pc)
    ensures Inv(AdvanceAcquire(s, t, choice))
  {
    var th' := AdvanceAcquire(s, t, choice).threads[t];
    SwapResult(s, t, choice);
    SwapStep(s, t, th');
  }

  /** After a swap the thread is in possession, or it goes on waiting, or it gives up. */
  lemma SwapResult(s: State, t: nat, choice: bool)
    requires t < |s.threads|
    requires Swaps(s.threads[t].pc)
    ensures |AdvanceAcquire(s, t, choice).threads| == |s.threads|
    ensures var th' := AdvanceAcquire(s, t, choice).threads[t];
            && AdvanceAcquire(s, t, choice) == Put(Swapped(s, t), t, th')
            && th'.depth == s.threads[t].depth && th'.cleaned == s.threads[t].cleaned
            && th'.status == s.threads[t].status
            && (if s.mutex.free then th'.pc == AcqOwner || th'.pc == AcqSetOwner
                else th'.pc == Idle || th'.pc.AcqFailOwner? || th'.pc == WaitForever || th'.pc == WaitSpin
                     || th'.pc.WaitPoll?)
  {
  }

  lemma RelReadKeepsInv(s: State, t: nat)
    requires Inv(s) && t < |s.threads| && Runs(s.threads[t]) && ReleaseReads(s.threads[t].pc)
    ensures Inv(AdvanceRelease(s, t))
  {
    var m := s.mutex;
    var th := s.threads[t];
    match th.pc
    case RelActive =>
      LocalStep(s, t, if m.active then th.(pc := RelNull) else th.(pc := Idle, last := OsErrorParameter));
    case RelNull =>
      LocalStep(s, t, if m.owner == NOBODY then th.(pc := Idle, last := OsErrorResource) else th.(pc := RelOwner));
    case RelOwner =>
      if s.flag != t { NotOwner(s, t); }
      LocalStep(s, t, if m.owner != t then th.(pc := Idle, last := OsErrorResource) else th.(pc := RelDecRead));
    case RelCount => LocalStep(s, t, if m.count == 0 then th.(pc := RelClear) else th.(pc := Idle, last := OsOK));
  }

  lemma RelWriteKeepsInv(s: State, t: nat)
    requires Inv(s) && t < |s.threads| && Runs(s.threads[t]) && ReleaseWrites(s.threads[t].pc)
    ensures Inv(AdvanceRelease(s, t))
  {
    var m := s.mutex;
    var th := s.threads[t];
    match th.pc
    case RelDecRead => LocalStep(s, t, th.(pc := RelDecWrite(m.count)));
    case RelDecWrite(v) => HolderStep(s, t, m.(count := v - 1), th.(pc := RelCount, depth := Less(th.depth)));
    case RelClear => HolderStep(s, t, m.(owner := NOBODY), th.(pc := RelFree));
    case RelFree => FreeStep(s, t, th.(pc := Idle, last := OsOK));
  }

  /** A running thread's next access keeps the invariant. */
  lemma AdvanceKeepsInv(s: State, t: nat, choice: bool)
    requires Inv(s) && t < |s.threads| && Runs(s.threads[t])
    ensures Inv(Advance(s, t, choice))
  {
    match s.threads[t].pc
    case Idle =>
    case AcqActive(_) => TakeKeepsInv(s, t, choice);
    case AcqSwap(_) => SwapKeepsInv(s, t, choice);
    case AcqOwner => TakeKeepsInv(s, t, choice);
    case AcqSetOwner => TakeKeepsInv(s, t, choice);
    case AcqSetCount => TakeKeepsInv(s, t, choice);
    case AcqBad => TakeKeepsInv(s, t, choice);
    case AcqFailOwner(_) => RetakeKeepsInv(s, t, choice);
    case AcqIncRead => RetakeKeepsInv(s, t, choice);
    case AcqIncWrite(_) => CountUpKeepsInv(s, t, choice);
    case AcqHow(_) => RetakeKeepsInv(s, t, choice);
    case WaitForever => SwapKeepsInv(s, t, choice);
    case WaitSpin => SwapKeepsInv(s, t, choice);
    case WaitPoll(_, _) => SwapKeepsInv(s, t, choice);
    case RelActive => RelReadKeepsInv(s, t);
    case RelNull => RelReadKeepsInv(s, t);
    case RelOwner => RelReadKeepsInv(s, t);
    case RelDecRead => RelWriteKeepsInv(s, t);
    case RelDecWrite(_) => RelWriteKeepsInv(s, t);
    case RelCount => RelReadKeepsInv(s, t);
    case RelClear => RelWriteKeepsInv(s, t);
    case RelFree => RelWriteKeepsInv(s, t);
    case CleanOwner(v) => CleanKeepsInv(s, t, v);
    case CleanFlags(v, _) => CleanKeepsInv(s, t, v);
    case CleanFree(v) => CleanKeepsInv(s, t, v);
  }

  /** The mutex is deleted: no cleanup that has not reached its last access will free the CSR any more. */
  lemma DeleteStep(s: State)
    requires Inv(s)
    ensures Inv(s.(mutex := s.mutex.(active := false)))
  {
    var s' := s.(mutex := s.mutex.(active := false));
    CoreStays(s, s');
    forall c, u | 0 <= c < |s.threads| && Cleaning(s'.threads[c].pc, u) ensures CleaningOk(s', c, u) {
      assert Cleaning(s.threads[c].pc, u) && CleaningOk(s, c, u);
      assert forall d :: 0 <= d < |s.threads| && Armed(s', d, u) ==> Armed(s, d, u);
    }
  }

  /** A thread that is neither leaving nor gone changes its status. */
  lemma StatusStep(s: State, t: nat, st: Status)
    requires Inv(s) && t < |s.threads| && st != Leaving
    requires s.threads[t].status == Live || s.threads[t].status == Stopped
    ensures Inv(Put(s, t, s.threads[t].(status := st)))
  {
    var s' := Put(s, t, s.threads[t].(status := st));
    CoreStays(s, s');
    forall c, u | 0 <= c < |s.threads| && Cleaning(s'.threads[c].pc, u) ensures CleaningOk(s', c, u) {
      assert Cleaning(s.threads[c].pc, u) && CleaningOk(s, c, u);
      assert forall d :: 0 <= d < |s.threads| && Cleaning(s'.threads[d].pc, u) ==>
        Cleaning(s.threads[d].pc, u) && Armed(s', d, u) == Armed(s, d, u);
    }
  }

  /** A thread starts cleaning: for a victim that nobody cleans yet, or for one that has nothing to free. */
  lemma StartCleaning(s: State, t: nat, v: nat)
    requires Inv(s) && t < |s.threads| && v < |s.threads| && s.threads[t].pc == Idle && s.threads[t].status == Live
    requires t != v ==> s.threads[v].status == Gone
    requires (!s.threads[v].cleaned && forall c :: 0 <= c < |s.threads| ==> !Cleaning(s.threads[c].pc, v))
             || !(s.mutex.owner == v && s.mutex.robust && s.mutex.active)
    ensures Inv(Put(s, t, s.threads[t].(pc := CleanOwner(v), status := if t == v then Leaving else Live)))
  {
    var s' := Put(s, t, s.threads[t].(pc := CleanOwner(v), status := if t == v then Leaving else Live));
    CoreStays(s, s');
    forall c, u | 0 <= c < |s.threads| && Cleaning(s'.threads[c].pc, u) ensures CleaningOk(s', c, u) {
      if c != t { OthersClean(s, s', t, v, c, u); } else { FirstClean(s, s', t, v); }
    }
  }

  /** A cleanup that was under way is not disturbed by a new one. */
  lemma OthersClean(s: State, s': State, t: nat, v: nat, c: nat, u: nat)
    requires Inv(s) && t < |s.threads| && v < |s.threads| && s.threads[t].pc == Idle && s.threads[t].status == Live
    requires (!s.threads[v].cleaned && forall c :: 0 <= c < |s.threads| ==> !Cleaning(s.threads[c].pc, v))
             || !(s.mutex.owner == v && s.mutex.robust && s.mutex.active)
    requires s' == Put(s, t, s.threads[t].(pc := CleanOwner(v), status := if t == v then Leaving else Live))
    requires c < |s.threads| && c != t && Cleaning(s.threads[c].pc, u)
    ensures CleaningOk(s', c, u)
  {
    assert CleaningOk(s, c, u);
  }

  lemma FirstClean(s: State, s': State, t: nat, v: nat)
    requires Inv(s) && t < |s.threads| && v < |s.threads| && s.threads[t].pc == Idle && s.threads[t].status == Live
    requires t != v ==> s.threads[v].status == Gone
    requires (!s.threads[v].cleaned && forall c :: 0 <= c < |s.threads| ==> !Cleaning(s.threads[c].pc, v))
             || !(s.mutex.owner == v && s.mutex.robust && s.mutex.active)
    requires s' == Put(s, t, s.threads[t].(pc := CleanOwner(v), status := if t == v then Leaving else Live))
    ensures CleaningOk(s', t, v)
  {
    if Armed(s', t, v) { UncleanedOwner(s, v); }
  }

  /** An owner whose CSR was not freed for it has the flag. */
  lemma UncleanedOwner(s: State, v: nat)
    requires Core(s) && v < |s.threads| && s.mutex.owner == v && !s.threads[v].cleaned
    ensures s.flag == v
  {
    assert s.flag != NOBODY && HolderOk(s, s.flag);
  }

  lemma NobodyCleans(s: State, v: nat)
    requires Inv(s) && v < |s.threads| && (s.threads[v].status == Live || s.threads[v].status == Stopped)
    ensures forall c :: 0 <= c < |s.threads| ==> !Cleaning(s.threads[c].pc, v)
    ensures !s.threads[v].cleaned
  {
    assert forall c :: 0 <= c < |s.threads| && Cleaning(s.threads[c].pc, v) ==> CleaningOk(s, c, v);
  }

  lemma BeginKeepsInv(s: State, e: Event)
    requires Inv(s) && (e.Acquire? || e.Release?)
    ensures Inv(Fire(s, e))
  {
    if Fire(s, e) != s {
      LocalStep(s, e.t, s.threads[e.t].(pc := if e.Acquire? then AcqActive(e.timeout) else RelActive));
    }
  }

  lemma StatusKeepsInv(s: State, e: Event)
    requires Inv(s) && (e.Delete? || e.Stop? || e.Resume?)
    ensures Inv(Fire(s, e))
  {
    if Fire(s, e) != s {
      match e {
        case Delete(_) => DeleteStep(s);
        case Stop(t) => StatusStep(s, t, Stopped);
        case Resume(t) => StatusStep(s, t, Live);
      }
    }
  }

  lemma ExitKeepsInv(s: State, t: nat)
    requires Inv(s)
    ensures Inv(Fire(s, Exit(t)))
  {
    if Fire(s, Exit(t)) != s { NobodyCleans(s, t); StartCleaning(s, t, t); }
  }

  lemma TerminateKeepsInv(s: State, t: nat, v: nat)
    requires Inv(s) && MayClean(s, Terminate(t, v))
    ensures Inv(Fire(s, Terminate(t, v)))
  {
    if Fire(s, Terminate(t, v)) != s {
      if s.threads[v].status == Stopped {
        NobodyCleans(s, v);
        StatusStep(s, v, Gone);
      }
      StartCleaning(Doomed(s, v), t, v);
    }
  }

  /** Every event keeps the invariant, provided each terminate names a thread it may clean for. */
  lemma FireKeepsInv(s: State, e: Event)
    requires Inv(s) && MayClean(s, e)
    ensures Inv(Fire(s, e))
  {
    match e
    case Step(t, choice) => if Fire(s, e) != s { AdvanceKeepsInv(s, t, choice); }
    case Acquire(_, _) => BeginKeepsInv(s, e);
    case Release(_) => BeginKeepsInv(s, e);
    case Delete(_) => StatusKeepsInv(s, e);
    case Stop(_) => StatusKeepsInv(s, e);
    case Resume(_) => StatusKeepsInv(s, e);
    case Exit(t) => ExitKeepsInv(s, t);
    case Terminate(t, v) => TerminateKeepsInv(s, t, v);
  }
}
