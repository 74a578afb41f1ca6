/** When thread_clean may free a mutex: exactly while no other thread has it. Terminating a thread a
    second time, which osThreadTerminate does not refuse, is safe in every continuation exactly when
    the mutex no longer names that thread as its owner; terminating a thread that is not gone, exactly
    when it has been stopped. */
module MutexCleanup {
  import opened MutexProtocol
  import opened MutexTheorems

  /** Freeing the CSR for victim v is right exactly when nobody else has it. */
  lemma CleanFreeExactly(s: State, t: nat, v: nat)
    requires Core(s) && t < |s.threads| && v < |s.threads| && s.threads[t].pc == CleanFree(v)
    ensures Core(AdvanceClean(s, t)) <==> s.flag == NOBODY || s.flag == v
  {
    var s' := AdvanceClean(s, t);
    if s.flag != NOBODY && s.flag != v {
      assert HolderOk(s, s.flag);
      assert s'.threads[s.flag].depth == s.threads[s.flag].depth;
      assert s.flag != t ==> s'.threads[s.flag] == s.threads[s.flag];
    }
  }

  // ---------------------------------------------------------------------------- putting runs together

  /** No terminate in it. */
  ghost predicate Calm(es: seq<Event>) {
    forall i :: 0 <= i < |es| ==> !es[i].Terminate?
  }

  lemma {:induction false} AfterAppend(s: State, a: seq<Event>, b: seq<Event>)
    ensures After(s, a + b) == After(After(s, a), b)
    ensures Disciplined(s, a + b) <==> Disciplined(s, a) && Disciplined(After(s, a), b)
    decreases |a|
  {
    if a == [] {
      assert a + b == b;
    } else {
      assert (a + b)[1..] == a[1..] + b;
      AfterAppend(Fire(s, a[0]), a[1..], b);
    }
  }

  lemma {:induction false} CalmIsDisciplined(s: State, es: seq<Event>)
    requires Calm(es)
    ensures Disciplined(s, es)
    decreases |es|
  {
    if es != [] { CalmIsDisciplined(Fire(s, es[0]), es[1..]); }
  }

  lemma More(s: State, es: seq<Event>, x: State, e: Event) returns (es': seq<Event>)
    requires After(s, es) == x && Calm(es) && !e.Terminate?
    ensures After(s, es') == Fire(x, e) && Calm(es')
  {
    es' := es + [e];
    AfterAppend(s, es, [e]);
    assert After(x, [e]) == After(Fire(x, e), []);
  }

  lemma Join(s: State, a: seq<Event>, x: State, b: seq<Event>) returns (es: seq<Event>)
    requires After(s, a) == x && Calm(a) && Calm(b)
    ensures After(s, es) == After(x, b) && Calm(es)
  {
    es := a + b;
    AfterAppend(s, a, b);
  }

  /** t's place, the mutex and the flag after one of t's accesses. */
  function At(s: State, t: nat, m: Mutex, pc: Pc, flag: int): State
    requires t < |s.threads|
  {
    State(m, s.threads[t := s.threads[t].(pc := pc)], flag)
  }

  predicate AtRest(s: State, t: nat) {
    t < |s.threads| && s.threads[t].pc == Idle && s.threads[t].status == Live
  }

  predicate WaitsAt(s: State, t: nat) {
    t < |s.threads| && s.threads[t].pc == WaitForever && s.threads[t].status == Live
  }

  lemma BeginsAcquire(s: State, t: nat) returns (es: seq<Event>)
    requires AtRest(s, t) && s.mutex.active
    ensures Calm(es) && After(s, es) == At(s, t, s.mutex, AcqSwap(WAIT_FOREVER), s.flag)
  {
    es := More(s, [], s, Acquire(t, WAIT_FOREVER));
    var s1 := At(s, t, s.mutex, AcqActive(WAIT_FOREVER), s.flag);
    es := More(s, es, s1, Step(t, true));
    assert Fire(s1, Step(t, true)) == At(s, t, s.mutex, AcqSwap(WAIT_FOREVER), s.flag);
  }

  /** An acquire that finds the CSR free has it, and reads owner next. */
  lemma GetsFlag(s: State, t: nat) returns (es: seq<Event>)
    requires AtRest(s, t) && s.mutex.active && s.mutex.free
    ensures Calm(es) && After(s, es) == At(s, t, s.mutex.(free := false), AcqOwner, t)
  {
    es := BeginsAcquire(s, t);
    var s1 := At(s, t, s.mutex, AcqSwap(WAIT_FOREVER), s.flag);
    es := More(s, es, s1, Step(t, true));
    assert Fire(s1, Step(t, true)) == At(s, t, s.mutex.(free := false), AcqOwner, t);
  }

  /** A contended acquire without limit ends up in its waiting loop. */
  lemma Waits(s: State, t: nat) returns (es: seq<Event>)
    requires AtRest(s, t) && s.mutex.active && !s.mutex.free && s.mutex.owner != t
    ensures Calm(es) && After(s, es) == At(s, t, s.mutex, WaitForever, s.flag)
  {
    es := BeginsAcquire(s, t);
    var s1 := At(s, t, s.mutex, AcqSwap(WAIT_FOREVER), s.flag);
    var more := Misses(s1, t);
    es := Join(s, es, s1, more);
    assert At(s1, t, s1.mutex, WaitForever, s1.flag) == At(s, t, s.mutex, WaitForever, s.flag);
  }

  lemma Misses(s: State, t: nat) returns (es: seq<Event>)
    requires t < |s.threads| && s.threads[t].pc == AcqSwap(WAIT_FOREVER) && s.threads[t].status == Live
    requires !s.mutex.free && s.mutex.owner != t
    ensures Calm(es) && After(s, es) == At(s, t, s.mutex, WaitForever, s.flag)
  {
    var s1 := At(s, t, s.mutex, AcqFailOwner(WAIT_FOREVER), s.flag);
    SwapMisses(s, t);
    es := More(s, [], s, Step(t, true));
    es := More(s, es, s1, Step(t, true));
    assert Fire(s1, Step(t, true)) == At(s, t, s.mutex, WaitForever, s.flag);
  }

  lemma SwapMisses(s: State, t: nat)
    requires t < |s.threads| && s.threads[t].pc == AcqSwap(WAIT_FOREVER) && s.threads[t].status == Live && !s.mutex.free
    ensures Fire(s, Step(t, true)) == At(s, t, s.mutex, AcqFailOwner(WAIT_FOREVER), s.flag)
  {
  }

  /** The direct path over an owner hands the CSR back. */
  lemma HandsBack(s: State, t: nat) returns (es: seq<Event>)
    requires t < |s.threads| && s.threads[t].pc == AcqOwner && s.threads[t].status == Live && s.mutex.owner != NOBODY
    ensures Calm(es)
    ensures After(s, es) == Put(Freed(s), t, s.threads[t].(pc := Idle, last := OsError))
  {
    es := More(s, [], s, Step(t, true));
    var s1 := Goto(s, t, AcqBad);
    es := More(s, es, s1, Step(t, true));
    assert Fire(s1, Step(t, true)) == Put(Freed(s), t, s.threads[t].(pc := Idle, last := OsError));
  }

  /** A waiter that finds the CSR free gets it. */
  lemma Enters(s: State, t: nat) returns (es: seq<Event>)
    requires WaitsAt(s, t) && s.mutex.free
    ensures Calm(es) && After(s, es) == At(s, t, s.mutex.(free := false), AcqSetOwner, t)
  {
    es := More(s, [], s, Step(t, true));
  }

  function Owned(s: State, t: nat): State
    requires t < |s.threads|
  {
    State(s.mutex.(owner := t, count := 1), s.threads[t := s.threads[t].(pc := Idle, depth := 1, last := OsOK)], s.flag)
  }

  /** A thread about to write its name is inside two accesses later, whatever owner and count hold. */
  lemma Owns(s: State, t: nat) returns (es: seq<Event>)
    requires t < |s.threads| && s.threads[t].pc == AcqSetOwner && s.threads[t].status == Live
    ensures Calm(es) && After(s, es) == Owned(s, t)
  {
    es := More(s, [], s, Step(t, true));
    var s1 := At(s, t, s.mutex.(owner := t), AcqSetCount, s.flag);
    es := More(s, es, s1, Step(t, true));
    assert Fire(s1, Step(t, true)) == Owned(s, t);
  }

  function Inside(s: State, t: nat): State
    requires t < |s.threads|
  {
    State(s.mutex.(free := false, owner := t, count := 1), s.threads[t := s.threads[t].(depth := 1, last := OsOK)], t)
  }

  /** An uncontended acquire. */
  lemma TakesMutex(s: State, t: nat) returns (es: seq<Event>)
    requires AtRest(s, t) && s.mutex.active && s.mutex.free && s.mutex.owner == NOBODY
    ensures Calm(es) && After(s, es) == Inside(s, t)
  {
    es := GetsFlag(s, t);
    var s1 := At(s, t, s.mutex.(free := false), AcqOwner, t);
    var more := Passes(s1, t);
    es := Join(s, es, s1, more);
    assert Owned(At(s1, t, s1.mutex, AcqSetOwner, t), t) == Inside(s, t);
  }

  lemma Passes(s: State, t: nat) returns (es: seq<Event>)
    requires t < |s.threads| && s.threads[t].pc == AcqOwner && s.threads[t].status == Live && s.mutex.owner == NOBODY
    ensures Calm(es) && After(s, es) == Owned(At(s, t, s.mutex, AcqSetOwner, s.flag), t)
  {
    es := More(s, [], s, Step(t, true));
    var s1 := At(s, t, s.mutex, AcqSetOwner, s.flag);
    assert Fire(s, Step(t, true)) == s1;
    var more := Owns(s1, t);
    es := Join(s, es, s1, more);
  }

  /** thread_clean by c for v, which the mutex names, comes to the write that frees the CSR. */
  lemma ReachesFree(s: State, c: nat, v: nat) returns (es: seq<Event>)
    requires c < |s.threads| && s.threads[c].pc == CleanOwner(v) && s.threads[c].status == Live
    requires s.mutex.owner == v && s.mutex.robust && s.mutex.active
    ensures Calm(es) && After(s, es) == At(s, c, s.mutex, CleanFree(v), s.flag)
  {
    es := More(s, [], s, Step(c, true));
    var s1 := At(s, c, s.mutex, CleanFlags(v, true), s.flag);
    es := More(s, es, s1, Step(c, true));
    assert Fire(s1, Step(c, true)) == At(s, c, s.mutex, CleanFree(v), s.flag);
  }

  function FreedFor(s: State, c: nat, v: nat): State
    requires c < |s.threads| && v < |s.threads| && c != v
  {
    var s1 := Put(Freed(s), v, s.threads[v].(depth := 0, cleaned := true, status := Gone));
    Put(s1, c, s.threads[c].(pc := Idle))
  }

  lemma CleanFrees(s: State, c: nat, v: nat) returns (es: seq<Event>)
    requires c < |s.threads| && v < |s.threads| && v != c && s.threads[c].pc == CleanFree(v)
    requires s.threads[c].status == Live
    ensures Calm(es) && After(s, es) == FreedFor(s, c, v)
  {
    es := More(s, [], s, Step(c, true));
    assert Fire(s, Step(c, true)) == FreedFor(s, c, v);
  }

  // ------------------------------------------------------- terminating a thread that is already gone

  /** c, a and b are three live threads besides v, which is gone. */
  predicate Cast(s: State, c: nat, v: nat, a: nat, b: nat) {
    c < |s.threads| && v < |s.threads| && a < |s.threads| && b < |s.threads| && c != a && c != b && a != b
    && s.threads[c].status == Live && s.threads[a].status == Live && s.threads[b].status == Live
    && s.threads[v].status == Gone
  }

  /** The robust mutex still names v, and c has begun to clean for v. */
  predicate Trap(s: State, c: nat, v: nat, a: nat, b: nat) {
    Cast(s, c, v, a, b) && s.mutex.owner == v && s.mutex.robust && s.mutex.active && s.threads[c].pc == CleanOwner(v)
  }

  /** a takes the CSR for a moment, which sends b into its waiting loop. */
  lemma SendsToWait(s: State, c: nat, v: nat, a: nat, b: nat) returns (es: seq<Event>, s': State)
    requires Trap(s, c, v, a, b) && AtRest(s, a) && AtRest(s, b) && s.mutex.free
    ensures Calm(es) && After(s, es) == s' && Trap(s', c, v, a, b) && AtRest(s', a) && WaitsAt(s', b) && s'.mutex.free
  {
    es := GetsFlag(s, a);
    var s1 := At(s, a, s.mutex.(free := false), AcqOwner, a);
    var more := Waits(s1, b);
    es := Join(s, es, s1, more);
    var s2 := At(s1, b, s1.mutex, WaitForever, s1.flag);
    more := HandsBack(s2, a);
    es := Join(s, es, s2, more);
    s' := Put(Freed(s2), a, s2.threads[a].(pc := Idle, last := OsError));
  }

  /** b gets the CSR in its loop; while it has not yet written its name a goes to wait and c finds v
      still named. */
  lemma FindsNamed(s: State, c: nat, v: nat, a: nat, b: nat) returns (es: seq<Event>, s': State)
    requires Trap(s, c, v, a, b) && AtRest(s, a) && WaitsAt(s, b) && s.mutex.free
    ensures Calm(es) && After(s, es) == s' && Cast(s', c, v, a, b) && WaitsAt(s', a)
    ensures s'.threads[b].pc == AcqSetOwner && s'.threads[c].pc == CleanFree(v)
  {
    es := Enters(s, b);
    var s1 := At(s, b, s.mutex.(free := false), AcqSetOwner, b);
    var more := Waits(s1, a);
    es := Join(s, es, s1, more);
    var s2 := At(s1, a, s1.mutex, WaitForever, s1.flag);
    more := ReachesFree(s2, c, v);
    es := Join(s, es, s2, more);
    s' := At(s2, c, s2.mutex, CleanFree(v), s2.flag);
  }

  /** b enters, c frees the CSR, and a enters. */
  lemma BothEnter(s: State, c: nat, v: nat, a: nat, b: nat) returns (es: seq<Event>, s': State)
    requires Cast(s, c, v, a, b) && WaitsAt(s, a) && s.threads[b].pc == AcqSetOwner && s.threads[c].pc == CleanFree(v)
    ensures Calm(es) && After(s, es) == s' && !MutualExclusion(s')
  {
    es := Owns(s, b);
    var s1 := Owned(s, b);
    var more := CleanFrees(s1, c, v);
    es := Join(s, es, s1, more);
    var s2 := FreedFor(s1, c, v);
    more := Enters(s2, a);
    es := Join(s, es, s2, more);
    var s3 := At(s2, a, s2.mutex.(free := false), AcqSetOwner, a);
    more := Owns(s3, a);
    es := Join(s, es, s3, more);
    s' := Owned(s3, a);
    assert s'.threads[a].depth == 1 && s'.threads[b].depth == 1;
  }

  lemma TrapBreaks(s: State, c: nat, v: nat, a: nat, b: nat) returns (es: seq<Event>)
    requires Trap(s, c, v, a, b) && AtRest(s, a) && AtRest(s, b) && s.mutex.free
    ensures Calm(es) && !MutualExclusion(After(s, es))
  {
    var s1, s2, more, end;
    es, s1 := SendsToWait(s, c, v, a, b);
    more, s2 := FindsNamed(s1, c, v, a, b);
    es := Join(s, es, s1, more);
    more, end := BothEnter(s2, c, v, a, b);
    es := Join(s, es, s2, more);
  }

  // -------------------------------------- the same while another thread is just taking the mutex

  /** h has the CSR and is between the swap and writing its name. */
  predicate Taking(s: State, h: nat) {
    h < |s.threads| && s.threads[h].status == Live && !s.mutex.free
    && (s.threads[h].pc == AcqOwner || s.threads[h].pc == AcqBad || s.threads[h].pc == AcqSetOwner)
  }

  /** h reads the old name, or has read it, and hands the CSR back. */
  lemma TrapReopens(s: State, c: nat, v: nat, a: nat, b: nat, h: nat) returns (es: seq<Event>, s': State)
    requires Trap(s, c, v, a, b) && AtRest(s, a) && AtRest(s, b) && Taking(s, h) && s.threads[h].pc != AcqSetOwner
    ensures Calm(es) && After(s, es) == s' && Trap(s', c, v, a, b) && AtRest(s', a) && AtRest(s', b) && s'.mutex.free
  {
    s' := Put(Freed(s), h, s.threads[h].(pc := Idle, last := OsError));
    if s.threads[h].pc == AcqOwner {
      es := HandsBack(s, h);
    } else {
      es := More(s, [], s, Step(h, true));
      assert Fire(s, Step(h, true)) == s';
    }
  }

  /** h is about to write its name: a goes to wait and c finds v still named. */
  lemma TrapCloses(s: State, c: nat, v: nat, a: nat, b: nat, h: nat) returns (es: seq<Event>, s': State)
    requires Trap(s, c, v, a, b) && AtRest(s, a) && Taking(s, h) && s.threads[h].pc == AcqSetOwner
    ensures Calm(es) && After(s, es) == s' && Cast(s', c, v, a, h) && WaitsAt(s', a)
    ensures s'.threads[h].pc == AcqSetOwner && s'.threads[c].pc == CleanFree(v)
  {
    es := Waits(s, a);
    var s1 := At(s, a, s.mutex, WaitForever, s.flag);
    var more := ReachesFree(s1, c, v);
    es := Join(s, es, s1, more);
    s' := At(s1, c, s1.mutex, CleanFree(v), s1.flag);
  }

  lemma TakenTrapBreaks(s: State, c: nat, v: nat, a: nat, b: nat, h: nat) returns (es: seq<Event>)
    requires Trap(s, c, v, a, b) && AtRest(s, a) && AtRest(s, b) && Taking(s, h)
    ensures Calm(es) && !MutualExclusion(After(s, es))
  {
    var s1, more, end;
    if s.threads[h].pc == AcqSetOwner {
      es, s1 := TrapCloses(s, c, v, a, b, h);
      more, end := BothEnter(s1, c, v, a, h);
    } else {
      es, s1 := TrapReopens(s, c, v, a, b, h);
      more := TrapBreaks(s1, c, v, a, b);
    }
    es := Join(s, es, s1, more);
  }

  /** While a gone thread is named, a thread that has the CSR and is not gone is just taking it. */
  lemma HolderIsTaking(s: State, v: nat, h: nat)
    requires Inv(s) && v < |s.threads| && s.threads[v].status == Gone && s.mutex.owner == v
    requires h < |s.threads| && s.flag == h && s.threads[h].status != Gone
    ensures s.threads[h].pc == AcqOwner || s.threads[h].pc == AcqBad || s.threads[h].pc == AcqSetOwner
    ensures s.threads[h].status == Live || s.threads[h].status == Stopped
  {
    assert HolderOk(s, h);
  }

  /** A stopped one is resumed first. */
  lemma AnyTrapBreaks(s: State, c: nat, v: nat, a: nat, b: nat) returns (es: seq<Event>)
    requires Inv(s) && Cast(s, c, v, a, b) && AtRest(s, c) && AtRest(s, a) && AtRest(s, b)
    requires s.mutex.owner == v && s.mutex.robust && s.mutex.active
    requires s.mutex.free || (0 <= s.flag < |s.threads| && s.threads[s.flag].status != Gone)
    ensures Calm(es) && !MutualExclusion(After(Fire(s, Terminate(c, v)), es))
  {
    var s' := Fire(s, Terminate(c, v));
    if s.mutex.free {
      es := TrapBreaks(s', c, v, a, b);
    } else {
      var h := s.flag;
      HolderIsTaking(s, v, h);
      var s1 := Put(s', h, s'.threads[h].(status := Live));
      if s.threads[h].status == Stopped {
        es := More(s', [], s', Resume(h));
        assert Fire(s', Resume(h)) == s1;
      } else {
        es := [];
        assert s1 == s';
      }
      var more := TakenTrapBreaks(s1, c, v, a, b, h);
      es := Join(s', es, s1, more);
    }
  }

  /** Terminating a thread that is gone, while two more threads live and no gone thread has the CSR: every
      run after it keeps exclusion if and only if the mutex does not name that thread, is not robust or has
      been deleted. osMutexGetOwner tells a caller. */
  lemma TerminateAgainExactly(s: State, c: nat, v: nat, a: nat, b: nat)
    requires Inv(s) && Cast(s, c, v, a, b) && AtRest(s, c) && AtRest(s, a) && AtRest(s, b)
    requires s.mutex.free || (0 <= s.flag < |s.threads| && s.threads[s.flag].status != Gone)
    ensures (forall es :: Disciplined(Fire(s, Terminate(c, v)), es) ==>
               MutualExclusion(After(Fire(s, Terminate(c, v)), es)))
            <==> !(s.mutex.owner == v && s.mutex.robust && s.mutex.active)
  {
    var s' := Fire(s, Terminate(c, v));
    if s.mutex.owner == v && s.mutex.robust && s.mutex.active {
      var es := AnyTrapBreaks(s, c, v, a, b);
      CalmIsDisciplined(s', es);
    } else {
      forall es | Disciplined(s', es) ensures MutualExclusion(After(s', es)) {
        TerminateAgainSafe(s, c, v, es);
      }
    }
  }

  /** One half needs neither the CSR free nor other threads: a gone thread never becomes owner again. */
  lemma TerminateAgainSafe(s: State, c: nat, v: nat, es: seq<Event>)
    requires Inv(s) && v < |s.threads| && s.threads[v].status == Gone
    requires !(s.mutex.owner == v && s.mutex.robust && s.mutex.active)
    requires Disciplined(Fire(s, Terminate(c, v)), es)
    ensures MutualExclusion(After(Fire(s, Terminate(c, v)), es))
  {
    FireKeepsInv(s, Terminate(c, v));
    RunKeepsInv(Fire(s, Terminate(c, v)), es);
  }

  // ---------------------------------------------------------------------- a run that comes to the case

  /** A fresh robust mutex whose first thread was stopped inside. */
  function StoppedInside(n: nat, v: nat): State
    requires v < n
  {
    var s := Fresh(n, true, true);
    State(s.mutex.(free := false, owner := v, count := 1), s.threads[v := Thread(Idle, 1, Stopped, false, OsOK)], v)
  }

  lemma StopsInside(n: nat, v: nat) returns (es: seq<Event>)
    requires v < n
    ensures Calm(es) && After(Fresh(n, true, true), es) == StoppedInside(n, v)
  {
    var s := Fresh(n, true, true);
    es := TakesMutex(s, v);
    var s1 := Inside(s, v);
    es := More(s, es, s1, Stop(v));
    assert Fire(s1, Stop(v)) == StoppedInside(n, v);
  }

  /** c terminates it: the CSR is free, and the mutex goes on naming v. */
  lemma DiesInside(n: nat, c: nat, v: nat) returns (es: seq<Event>, s': State)
    requires c < n && v < n && c != v
    ensures var s := Fresh(n, true, true); Disciplined(s, es) && After(s, es) == s'
    ensures |s'.threads| == n && s'.threads[v].status == Gone && s'.mutex == Mutex(true, v, 1, true, true, true)
    ensures forall t: nat :: t < n && t != v ==> s'.threads[t].pc == Idle && s'.threads[t].status == Live
  {
    var s, s1 := Fresh(n, true, true), StoppedInside(n, v);
    es := StopsInside(n, v);
    CalmIsDisciplined(s, es);
    var s2 := Fire(s1, Terminate(c, v));
    var more;
    more, s' := Dies(s2, c, v);
    CalmIsDisciplined(s2, more);
    var last := [Terminate(c, v)] + more;
    assert last[1..] == more;
    AfterAppend(s, es, last);
    es := es + last;
  }

  lemma Dies(s: State, c: nat, v: nat) returns (es: seq<Event>, s': State)
    requires c < |s.threads| && v < |s.threads| && c != v && s.threads[c].pc == CleanOwner(v)
    requires s.threads[c].status == Live
    requires s.mutex.owner == v && s.mutex.robust && s.mutex.active
    ensures Calm(es) && After(s, es) == s' && s' == FreedFor(s, c, v)
  {
    es := ReachesFree(s, c, v);
    var s1 := At(s, c, s.mutex, CleanFree(v), s.flag);
    var more := CleanFrees(s1, c, v);
    es := Join(s, es, s1, more);
    s' := FreedFor(s, c, v);
    assert FreedFor(s1, c, v) == s';
  }

  /** So from a fresh robust mutex, with four threads, one more terminate of v lets two threads in at once. */
  lemma SecondCleanupBreaksExclusion(n: nat, c: nat, v: nat, a: nat, b: nat)
    returns (before: seq<Event>, after: seq<Event>)
    requires c < n && v < n && a < n && b < n && c != v && c != a && c != b && v != a && v != b && a != b
    ensures Disciplined(Fresh(n, true, true), before) && Calm(after)
    ensures !MutualExclusion(After(Fire(After(Fresh(n, true, true), before), Terminate(c, v)), after))
  {
    var s;
    before, s := DiesInside(n, c, v);
    assert AtRest(s, c) && AtRest(s, a) && AtRest(s, b);
    after := TrapBreaks(Fire(s, Terminate(c, v)), c, v, a, b);
  }

  // ----------------------------------------------------------------- terminating a thread that runs

  /** A release finds its caller inside. */
  lemma FindsItself(s: State, t: nat) returns (es: seq<Event>)
    requires AtRest(s, t) && s.mutex.active && s.mutex.owner == t
    ensures Calm(es) && After(s, es) == Goto(s, t, RelDecRead)
  {
    es := More(s, [], s, Release(t));
    es := More(s, es, Goto(s, t, RelActive), Step(t, true));
    assert Fire(Goto(s, t, RelActive), Step(t, true)) == Goto(s, t, RelNull);
    var more := ReadsTwice(Goto(s, t, RelNull), t);
    es := Join(s, es, Goto(s, t, RelNull), more);
    assert Goto(Goto(s, t, RelNull), t, RelDecRead) == Goto(s, t, RelDecRead);
  }

  lemma ReadsTwice(s: State, t: nat) returns (es: seq<Event>)
    requires t < |s.threads| && s.threads[t].pc == RelNull && s.threads[t].status == Live && s.mutex.owner == t
    ensures Calm(es) && After(s, es) == Goto(s, t, RelDecRead)
  {
    es := More(s, [], s, Step(t, true));
    es := More(s, es, Goto(s, t, RelOwner), Step(t, true));
    assert Fire(Goto(s, t, RelOwner), Step(t, true)) == Goto(s, t, RelDecRead);
  }

  /** And counts down to zero. */
  lemma Decrements(s: State, t: nat) returns (es: seq<Event>)
    requires t < |s.threads| && s.threads[t].pc == RelDecRead && s.threads[t].status == Live
    requires s.mutex.count == 1 && s.threads[t].depth == 1
    ensures Calm(es)
    ensures After(s, es) == Put(s.(mutex := s.mutex.(count := 0)), t, s.threads[t].(pc := RelCount, depth := 0))
  {
    es := More(s, [], s, Step(t, true));
    var s1 := Goto(s, t, RelDecWrite(1));
    es := More(s, es, s1, Step(t, true));
    assert Fire(s1, Step(t, true))
        == Put(s.(mutex := s.mutex.(count := 0)), t, s.threads[t].(pc := RelCount, depth := 0));
  }

  /** Then it clears owner. */
  lemma ClearsOwner(s: State, t: nat) returns (es: seq<Event>)
    requires t < |s.threads| && s.threads[t].pc == RelCount && s.threads[t].status == Live && s.mutex.count == 0
    ensures Calm(es) && After(s, es) == Goto(s.(mutex := s.mutex.(owner := NOBODY)), t, RelFree)
  {
    es := More(s, [], s, Step(t, true));
    var s1 := Goto(s, t, RelClear);
    es := More(s, es, s1, Step(t, true));
    assert Fire(s1, Step(t, true)) == Goto(s.(mutex := s.mutex.(owner := NOBODY)), t, RelFree);
  }

  /** And frees the CSR. */
  lemma FreesCsr(s: State, t: nat) returns (es: seq<Event>)
    requires t < |s.threads| && s.threads[t].pc == RelFree && s.threads[t].status == Live
    ensures Calm(es) && After(s, es) == Put(Freed(s), t, s.threads[t].(pc := Idle, last := OsOK))
  {
    es := More(s, [], s, Step(t, true));
  }

  /** The release of a thread inside once: the mutex is as new, and nobody else has moved. */
  lemma Releases(s: State, t: nat) returns (es: seq<Event>, s': State)
    requires AtRest(s, t) && s.mutex.active && s.mutex.owner == t && s.mutex.count == 1 && s.threads[t].depth == 1
    ensures Calm(es) && After(s, es) == s' && s'.mutex == s.mutex.(free := true, owner := NOBODY, count := 0)
    ensures |s'.threads| == |s.threads| && forall u :: 0 <= u < |s.threads| && u != t ==> s'.threads[u] == s.threads[u]
  {
    es := FindsItself(s, t);
    var s1 := Goto(s, t, RelDecRead);
    var more := Decrements(s1, t);
    es := Join(s, es, s1, more);
    var s2 := Put(s1.(mutex := s1.mutex.(count := 0)), t, s1.threads[t].(pc := RelCount, depth := 0));
    more := ClearsOwner(s2, t);
    es := Join(s, es, s2, more);
    var s3 := Goto(s2.(mutex := s2.mutex.(owner := NOBODY)), t, RelFree);
    more := FreesCsr(s3, t);
    es := Join(s, es, s3, more);
    s' := Put(Freed(s3), t, s3.threads[t].(pc := Idle, last := OsOK));
  }

  /** c, a and b are three threads besides v; c runs, and b waits for the mutex. */
  predicate Race(s: State, c: nat, v: nat, a: nat, b: nat) {
    c < |s.threads| && v < |s.threads| && a < |s.threads| && b < |s.threads|
    && c != v && c != a && c != b && v != a && v != b && a != b && s.threads[c].status == Live && WaitsAt(s, b)
  }

  /** c finds v named and is about to free the CSR; then v releases by itself, and a takes the mutex. */
  lemma ChangesHands(s: State, c: nat, v: nat, a: nat, b: nat) returns (es: seq<Event>, s': State)
    requires Race(s, c, v, a, b) && s.threads[c].pc == CleanOwner(v) && AtRest(s, v) && AtRest(s, a)
    requires s.mutex.robust && s.mutex.active && s.mutex.owner == v && s.mutex.count == 1 && s.threads[v].depth == 1
    ensures Calm(es) && After(s, es) == s' && Race(s', c, v, a, b)
    ensures s'.threads[c].pc == CleanFree(v) && s'.threads[a].depth == 1
  {
    es := ReachesFree(s, c, v);
    var s1 := At(s, c, s.mutex, CleanFree(v), s.flag);
    var more, s2 := Releases(s1, v);
    es := Join(s, es, s1, more);
    more := TakesMutex(s2, a);
    es := Join(s, es, s2, more);
    s' := Inside(s2, a);
  }

  /** Then c frees the CSR that a has, and b enters. */
  lemma LateFree(s: State, c: nat, v: nat, a: nat, b: nat) returns (es: seq<Event>)
    requires Race(s, c, v, a, b) && s.threads[c].pc == CleanFree(v) && s.threads[a].depth == 1
    ensures Calm(es) && !MutualExclusion(After(s, es))
  {
    es := CleanFrees(s, c, v);
    var s1 := FreedFor(s, c, v);
    var more := Enters(s1, b);
    es := Join(s, es, s1, more);
    var s2 := At(s1, b, s1.mutex.(free := false), AcqSetOwner, b);
    more := Owns(s2, b);
    es := Join(s, es, s2, more);
    var end := Owned(s2, b);
    assert end.threads[a].depth == 1 && end.threads[b].depth == 1;
  }

  /** c cleans for v, which is inside and runs on. */
  lemma InsideVictimBreaks(s: State, c: nat, v: nat, a: nat, b: nat) returns (es: seq<Event>)
    requires c < |s.threads| && s.threads[c].pc == CleanOwner(v) && s.threads[c].status == Live
    requires AtRest(s, v) && AtRest(s, a) && AtRest(s, b)
    requires c != v && c != a && c != b && v != a && v != b && a != b
    requires !s.mutex.free && s.mutex.robust && s.mutex.active
    requires s.mutex.owner == v && s.mutex.count == 1 && s.threads[v].depth == 1
    ensures Calm(es) && !MutualExclusion(After(s, es))
  {
    es := Waits(s, b);
    var s1 := At(s, b, s.mutex, WaitForever, s.flag);
    var more, s2 := ChangesHands(s1, c, v, a, b);
    es := Join(s, es, s1, more);
    more := LateFree(s2, c, v, a, b);
    es := Join(s, es, s2, more);
  }

  /** The robust mutex is free and as new, or v is inside it once. */
  predicate OpenTo(s: State, v: nat) {
    v < |s.threads| && s.mutex.robust && s.mutex.active
    && ((s.mutex.free && s.mutex.owner == NOBODY) || (s.mutex.owner == v && s.threads[v].depth == 1))
  }

  /** Of four threads at rest, terminating one that runs on lets two of the others in at once, in some run. */
  lemma RunningVictimBreaksExclusion(s: State, c: nat, v: nat, a: nat, b: nat) returns (es: seq<Event>)
    requires Inv(s) && OpenTo(s, v) && AtRest(s, c) && AtRest(s, v) && AtRest(s, a) && AtRest(s, b)
    requires c != v && c != a && c != b && v != a && v != b && a != b
    ensures Calm(es) && !MutualExclusion(After(Fire(s, Terminate(c, v)), es))
  {
    var s0 := Fire(s, Terminate(c, v));
    if s.mutex.owner == v {
      UncleanedOwner(s, v);
      assert HolderOk(s, v);
      es := InsideVictimBreaks(s0, c, v, a, b);
    } else {
      es := TakesMutex(s0, v);
      var s1 := Inside(s0, v);
      var more := InsideVictimBreaks(s1, c, v, a, b);
      es := Join(s0, es, s1, more);
    }
  }

  /** Terminating a thread outside or once inside a robust mutex, while three others are at rest: every run
      after it keeps exclusion if and only if that thread has been stopped. */
  lemma TerminateExactly(s: State, c: nat, v: nat, a: nat, b: nat)
    requires Inv(s) && OpenTo(s, v) && AtRest(s, c) && AtRest(s, a) && AtRest(s, b)
    requires c != v && c != a && c != b && v != a && v != b && a != b
    requires s.threads[v].pc == Idle && (s.threads[v].status == Live || s.threads[v].status == Stopped)
    ensures (forall es :: Disciplined(Fire(s, Terminate(c, v)), es) ==>
               MutualExclusion(After(Fire(s, Terminate(c, v)), es)))
            <==> s.threads[v].status == Stopped
  {
    var s' := Fire(s, Terminate(c, v));
    if s.threads[v].status == Stopped {
      FireKeepsInv(s, Terminate(c, v));
      forall es | Disciplined(s', es) ensures MutualExclusion(After(s', es)) { RunKeepsInv(s', es); }
    } else {
      var es := RunningVictimBreaksExclusion(s, c, v, a, b);
      CalmIsDisciplined(s', es);
    }
  }
}
