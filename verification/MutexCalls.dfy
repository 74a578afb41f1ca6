/** What a whole call of one thread comes to, whatever the others do meanwhile, and what ifRecursive, active
    and a stop decide in it. */
module MutexCalls {
  import opened MutexProtocol
  import opened MutexTheorems

  // ---------- a mutex that is not recursive ----------

  /** Nobody is inside twice, or on the way to it. */
  predicate Flat(s: State) {
    !s.mutex.recursive
    && forall t :: 0 <= t < |s.threads| ==>
         s.threads[t].depth <= 1 && !s.threads[t].pc.AcqIncRead? && !s.threads[t].pc.AcqIncWrite?
  }

  /** t moves, and the fields other than ifRecursive are as they may be. */
  lemma FlatPut(s: State, t: nat, s': State, th: Thread)
    requires Flat(s) && t < |s.threads| && s'.threads == s.threads[t := th]
    requires s'.mutex.recursive == s.mutex.recursive
    requires th.depth <= 1 && !th.pc.AcqIncRead? && !th.pc.AcqIncWrite?
    ensures Flat(s')
  {
  }

  lemma FlatMove(s: State, t: nat, choice: bool)
    requires Flat(s) && t < |s.threads|
    ensures var s' := AdvanceAcquire(s, t, choice);
            && |s'.threads| == |s.threads| && s'.threads == s.threads[t := s'.threads[t]]
            && s'.mutex.recursive == s.mutex.recursive
            && (var th := s'.threads[t]; th.depth <= 1 && !th.pc.AcqIncRead? && !th.pc.AcqIncWrite?)
  {
    if Swaps(s.threads[t].pc) { SwapResult(s, t, choice); }
  }

  lemma FlatAcquire(s: State, t: nat, choice: bool)
    requires Flat(s) && t < |s.threads|
    ensures Flat(AdvanceAcquire(s, t, choice))
  {
    FlatMove(s, t, choice);
    FlatPut(s, t, AdvanceAcquire(s, t, choice), AdvanceAcquire(s, t, choice).threads[t]);
  }

  lemma FlatRelease(s: State, t: nat)
    requires Flat(s) && t < |s.threads|
    ensures Flat(AdvanceRelease(s, t))
  {
  }

  lemma FlatClean(s: State, t: nat)
    requires Flat(s) && t < |s.threads|
    ensures Flat(AdvanceClean(s, t))
  {
  }

  lemma FlatOther(s: State, s': State)
    requires Flat(s) && NoAccess(s, s')
    ensures Flat(s')
  {
  }

  lemma FlatFire(s: State, e: Event)
    requires Flat(s)
    ensures Flat(Fire(s, e))
  {
    if !e.Step? {
      FireNoAccess(s, e);
      FlatOther(s, Fire(s, e));
    } else if Fire(s, e) != s {
      FlatAcquire(s, e.t, e.choice);
      FlatRelease(s, e.t);
      FlatClean(s, e.t);
    }
  }

  lemma {:induction false} FlatRun(s: State, es: seq<Event>)
    requires Flat(s)
    ensures Flat(After(s, es))
    decreases |es|
  {
    if es != [] {
      FlatFire(s, es[0]);
      FlatRun(Fire(s, es[0]), es[1..]);
    }
  }

  /** In every run whatsoever of a mutex that is not recursive nobody is inside more than once. */
  lemma NeverNested(n: nat, robust: bool, es: seq<Event>, t: nat)
    requires t < |After(Fresh(n, false, robust), es).threads|
    ensures After(Fresh(n, false, robust), es).threads[t].depth <= 1
  {
    FlatRun(Fresh(n, false, robust), es);
  }

  // ---------- deletion ----------

  lemma AcquireKeepsActive(s: State, t: nat, choice: bool)
    requires t < |s.threads|
    ensures AdvanceAcquire(s, t, choice).mutex.active == s.mutex.active
  {
  }

  lemma OthersKeepActive(s: State, t: nat)
    requires t < |s.threads|
    ensures AdvanceRelease(s, t).mutex.active == s.mutex.active
    ensures AdvanceClean(s, t).mutex.active == s.mutex.active
  {
  }

  lemma InactiveStep(s: State, e: Event)
    requires !s.mutex.active
    ensures !Fire(s, e).mutex.active
  {
    if !e.Step? { InactiveOther(s, e); }
    else if e.t < |s.threads| { AcquireKeepsActive(s, e.t, e.choice); OthersKeepActive(s, e.t); }
  }

  lemma InactiveOther(s: State, e: Event)
    requires !s.mutex.active && !e.Step?
    ensures !Fire(s, e).mutex.active
  {
  }

  lemma {:induction false} InactiveRun(s: State, es: seq<Event>)
    requires !s.mutex.active
    ensures !After(s, es).mutex.active
    decreases |es|
  {
    if es != [] {
      InactiveStep(s, es[0]);
      InactiveRun(Fire(s, es[0]), es[1..]);
    }
  }

  /** osMutexDelete writes active and nothing else, and no event takes it back. */
  lemma DeleteIsFinal(s: State, t: nat, es: seq<Event>)
    requires t < |s.threads| && s.threads[t].status == Live && s.threads[t].pc == Idle
    ensures Fire(s, Delete(t)) == s.(mutex := s.mutex.(active := false))
    ensures !After(Fire(s, Delete(t)), es).mutex.active
  {
    InactiveRun(Fire(s, Delete(t)), es);
  }

  // ---------- the others, and t itself in one call ----------

  /** What can happen while t is in a call: the others' events, its own accesses, and that it is stopped and
      resumed. */
  predicate During(e: Event, t: nat) {
    Foreign(e, t) || (e.t == t && (e.Step? || e.Stop? || e.Resume?))
  }

  ghost predicate Spans(s: State, es: seq<Event>, t: nat) {
    Disciplined(s, es) && forall i :: 0 <= i < |es| ==> During(es[i], t)
  }

  lemma SpansRest(s: State, es: seq<Event>, t: nat)
    requires Spans(s, es, t) && es != []
    ensures During(es[0], t) && MayClean(s, es[0]) && Spans(Fire(s, es[0]), es[1..], t)
  {
    assert es[0] in es;
    forall i | 0 <= i < |es[1..]| ensures During(es[1..][i], t) { assert es[1..][i] == es[i + 1]; }
  }

  predicate Present(th: Thread) { th.status == Live || th.status == Stopped }

  /** An event during t's call: t moves by its own access or only changes its status. */
  lemma DuringFire(s: State, e: Event, t: nat)
    requires Inv(s) && MayClean(s, e) && t < |s.threads| && Present(s.threads[t]) && During(e, t)
    ensures Inv(Fire(s, e)) && (s.mutex.active <== Fire(s, e).mutex.active)
    ensures if e.t == t && e.Step? && s.threads[t].status == Live then Fire(s, e) == Advance(s, t, e.choice)
            else var s' := Fire(s, e);
                 && |s'.threads| == |s.threads| && s'.mutex.recursive == s.mutex.recursive
                 && s'.mutex.robust == s.mutex.robust
                 && Present(s'.threads[t]) && s'.threads[t] == s.threads[t].(status := s'.threads[t].status)
  {
    FireKeepsInv(s, e);
    if !s.mutex.active { InactiveStep(s, e); }
    if Foreign(e, t) { ForeignKeeps(s, e, t); }
  }

  lemma StoppedStep(s: State, e: Event, t: nat)
    requires Inv(s) && MayClean(s, e) && t < |s.threads| && s.threads[t].status == Stopped && During(e, t)
    requires e != Resume(t)
    ensures Inv(Fire(s, e)) && |Fire(s, e).threads| == |s.threads| && Fire(s, e).threads[t] == s.threads[t]
  {
    if Foreign(e, t) {
      FireKeepsInv(s, e);
      ForeignKeeps(s, e, t);
    }
  }

  lemma {:induction false} StoppedRun(s: State, t: nat, es: seq<Event>)
    requires Inv(s) && t < |s.threads| && s.threads[t].status == Stopped
    requires Spans(s, es, t) && Resume(t) !in es
    ensures |After(s, es).threads| == |s.threads| && After(s, es).threads[t] == s.threads[t]
    decreases |es|
  {
    if es != [] {
      SpansRest(s, es, t);
      StoppedStep(s, es[0], t);
      StoppedRun(Fire(s, es[0]), t, es[1..]);
    }
  }

  /** A thread stopped anywhere stands still until it is resumed, and then goes on where it was. */
  lemma StopsInPlace(s: State, t: nat, es: seq<Event>)
    requires Inv(s) && t < |s.threads| && s.threads[t].status == Live
    requires Spans(Fire(s, Stop(t)), es, t) && Resume(t) !in es
    ensures var s1 := After(Fire(s, Stop(t)), es);
            && |s1.threads| == |s.threads| && s1.threads[t] == s.threads[t].(status := Stopped)
            && Fire(s1, Resume(t)).threads[t] == s.threads[t]
  {
    StatusStep(s, t, Stopped);
    StoppedRun(Fire(s, Stop(t)), t, es);
  }

  // ---------- osMutexAcquire ----------

  /** How far the call has got: it began over a deleted mutex; or not; it has seen the mutex active; its
      first swap has found the CSR taken. */
  datatype Stage = Dead | Begun | Seen | Missed

  /** Thread t, inside depth times when it called, may enter again. */
  predicate Again(m: Mutex, depth: nat) { depth > 0 && m.recursive }

  predicate AcquireReturned(th: Thread, m: Mutex, timeout: nat, depth: nat, g: Stage) {
    && (g == Dead ==> th.last == OsErrorParameter)
    && th.depth == (if th.last == OsOK then depth + 1 else depth)
    && match th.last
       case OsOK => (depth > 0 ==> m.recursive) && (g == Missed && timeout == 0 ==> depth > 0)
       case OsErrorParameter => !m.active && (g == Dead || g == Begun)
       case OsErrorResource => timeout == 0 && !Again(m, depth)
       case OsErrorTimeout => 0 < timeout < WAIT_FOREVER && !Again(m, depth)
       case OsError => depth == 0 && g != Missed
       case None => false
  }

  /** The places of a call of osMutexAcquire. */
  predicate AcquirePlace(th: Thread, m: Mutex, timeout: nat, depth: nat, g: Stage) {
    if th.pc == Idle then AcquireReturned(th, m, timeout, depth, g)
    else
      && th.depth == depth
      && (g == Dead ==> th.pc.AcqActive?)
      && match th.pc
         case AcqActive(n) => n == timeout && (g == Begun || (g == Dead && !m.active))
         case AcqSwap(n) => n == timeout && g != Missed
         case AcqOwner => depth == 0 && g != Missed
         case AcqBad => depth == 0 && g != Missed
         case AcqSetOwner => depth == 0 && (g == Missed ==> timeout > 0)
         case AcqSetCount => depth == 0 && (g == Missed ==> timeout > 0)
         case AcqFailOwner(n) => n == timeout
         case AcqIncRead => Again(m, depth)
         case AcqIncWrite(_) => Again(m, depth)
         case AcqHow(n) => n == timeout && 0 < timeout < WAIT_FOREVER && !Again(m, depth)
         case WaitForever => timeout == WAIT_FOREVER && !Again(m, depth)
         case WaitSpin => 0 < timeout < WAIT_FOREVER && !Again(m, depth)
         case WaitPoll(n, _) => n == timeout && 0 < timeout < WAIT_FOREVER && !Again(m, depth)
         case _ => false
  }

  ghost predicate Acquiring(s: State, t: nat, timeout: nat, depth: nat, g: Stage) {
    && Inv(s) && t < |s.threads| && Present(s.threads[t]) && timeout <= WAIT_FOREVER
    && AcquirePlace(s.threads[t], s.mutex, timeout, depth, g)
  }

  /** A running thread is named as the owner exactly while it is inside, its first steps in and last steps
      out apart. */
  lemma OwnerIsInside(s: State, t: nat)
    requires Inv(s) && t < |s.threads| && Runs(s.threads[t])
    ensures s.threads[t].depth > 0 ==> s.mutex.owner == t && s.flag == t && !s.mutex.free
    ensures s.flag != t ==> s.mutex.owner != t && s.threads[t].depth == 0
  {
    if s.flag == t { assert HolderOk(s, t); } else { NotOwner(s, t); }
  }

  lemma AcquireSwaps(s: State, t: nat, choice: bool, timeout: nat, depth: nat, g: Stage)
    requires Acquiring(s, t, timeout, depth, g) && s.threads[t].status == Live && Swaps(s.threads[t].pc)
    ensures var s' := AdvanceAcquire(s, t, choice);
            |s'.threads| == |s.threads| && AcquirePlace(s'.threads[t], s'.mutex, timeout, depth, g)
  {
    OwnerIsInside(s, t);
    SwapResult(s, t, choice);
  }

  lemma AcquireRetakes(s: State, t: nat, choice: bool, timeout: nat, depth: nat, g: Stage)
    requires Acquiring(s, t, timeout, depth, g) && s.threads[t].status == Live && Retakes(s.threads[t].pc)
    ensures var s' := AdvanceAcquire(s, t, choice);
            |s'.threads| == |s.threads| && AcquirePlace(s'.threads[t], s'.mutex, timeout, depth, g)
  {
    OwnerIsInside(s, t);
    if s.flag == t { assert HolderOk(s, t); }
    RetakeResult(s, t, choice);
  }

  lemma AcquireTakes(s: State, t: nat, choice: bool, timeout: nat, depth: nat, g: Stage)
    requires Acquiring(s, t, timeout, depth, g) && s.threads[t].status == Live
    requires !Swaps(s.threads[t].pc) && !Retakes(s.threads[t].pc)
    ensures var s' := AdvanceAcquire(s, t, choice);
            |s'.threads| == |s.threads| && AcquirePlace(s'.threads[t], s'.mutex, timeout, depth, g)
  {
  }

  lemma AcquireStays(s: State, s': State, t: nat, timeout: nat, depth: nat, g: Stage)
    requires Acquiring(s, t, timeout, depth, g) && Inv(s') && (s'.mutex.active ==> s.mutex.active)
    requires |s'.threads| == |s.threads| && s'.mutex.recursive == s.mutex.recursive
    requires Present(s'.threads[t]) && s'.threads[t] == s.threads[t].(status := s'.threads[t].status)
    ensures Acquiring(s', t, timeout, depth, g)
  {
  }

  lemma OwnStep(s: State, t: nat, choice: bool)
    requires t < |s.threads| && !Releasing(s.threads[t].pc) && !InClean(s.threads[t].pc)
    ensures Advance(s, t, choice) == AdvanceAcquire(s, t, choice)
    ensures |AdvanceAcquire(s, t, choice).threads| == |s.threads|
    ensures AdvanceAcquire(s, t, choice).threads[t].status == s.threads[t].status
    ensures AdvanceAcquire(s, t, choice).mutex.recursive == s.mutex.recursive
  {
  }

  lemma AcquireOwn(s: State, t: nat, choice: bool, timeout: nat, depth: nat, g: Stage)
    requires Acquiring(s, t, timeout, depth, g) && s.threads[t].status == Live
    ensures var s' := Advance(s, t, choice);
            && |s'.threads| == |s.threads| && AcquirePlace(s'.threads[t], s'.mutex, timeout, depth, g)
            && s'.threads[t].status == Live && s'.mutex.recursive == s.mutex.recursive
  {
    OwnStep(s, t, choice);
    if Swaps(s.threads[t].pc) { AcquireSwaps(s, t, choice, timeout, depth, g); }
    else if Retakes(s.threads[t].pc) { AcquireRetakes(s, t, choice, timeout, depth, g); }
    else { AcquireTakes(s, t, choice, timeout, depth, g); }
  }

  lemma AcquireFire(s: State, e: Event, t: nat, timeout: nat, depth: nat, g: Stage)
    requires Acquiring(s, t, timeout, depth, g) && MayClean(s, e) && During(e, t)
    ensures Acquiring(Fire(s, e), t, timeout, depth, g) && Fire(s, e).mutex.recursive == s.mutex.recursive
  {
    DuringFire(s, e, t);
    if e.t == t && e.Step? && s.threads[t].status == Live {
      AcquireOwn(s, t, e.choice, timeout, depth, g);
    } else {
      AcquireStays(s, Fire(s, e), t, timeout, depth, g);
    }
  }

  lemma {:induction false} AcquireRun(s: State, es: seq<Event>, t: nat, timeout: nat, depth: nat, g: Stage)
    requires Acquiring(s, t, timeout, depth, g) && Spans(s, es, t)
    ensures Acquiring(After(s, es), t, timeout, depth, g) && After(s, es).mutex.recursive == s.mutex.recursive
    decreases |es|
  {
    if es != [] {
      SpansRest(s, es, t);
      AcquireFire(s, es[0], t, timeout, depth, g);
      AcquireRun(Fire(s, es[0]), es[1..], t, timeout, depth, g);
    }
  }

  /** A whole osMutexAcquire, whatever the others do before, between and after its accesses, once it has
      returned. From inside it gives osOK exactly over a recursive mutex; a refusal or a time-out tells which
      timeout was given; a mutex deleted before fails the call, and only a deleted one does. */
  lemma AcquireExactly(s: State, t: nat, timeout: nat, es: seq<Event>)
    requires Inv(s) && t < |s.threads| && s.threads[t].status == Live && s.threads[t].pc == Idle
    requires timeout <= WAIT_FOREVER && Spans(Fire(s, Acquire(t, timeout)), es, t)
    ensures t < |After(Fire(s, Acquire(t, timeout)), es).threads|
    ensures var s' := After(Fire(s, Acquire(t, timeout)), es);
            var depth, th := s.threads[t].depth, s'.threads[t];
            th.pc == Idle ==>
              && th.depth == depth + (if th.last == OsOK then 1 else 0)
              && (!s.mutex.active ==> th.last == OsErrorParameter)
              && (th.last == OsErrorParameter ==> !s'.mutex.active)
              && (depth > 0 && th.last != OsErrorParameter ==> (th.last == OsOK <==> s.mutex.recursive))
              && (depth > 0 && th.last != OsErrorParameter && timeout == 0 ==>
                    (th.last == OsErrorResource <==> !s.mutex.recursive))
              && (th.last == OsErrorResource ==> timeout == 0)
              && (th.last == OsErrorTimeout ==> 0 < timeout < WAIT_FOREVER)
              && (th.last == OsError ==> depth == 0) && th.last != None
  {
    var s1 := Fire(s, Acquire(t, timeout));
    BeginKeepsInv(s, Acquire(t, timeout));
    AcquireRun(s1, es, t, timeout, s.threads[t].depth, if s.mutex.active then Begun else Dead);
  }

  lemma FirstSwap(s: State, t: nat, choice: bool, g: Stage)
    requires Inv(s) && t < |s.threads| && s.threads[t].status == Live && s.threads[t].pc.AcqSwap?
    requires s.threads[t].pc.timeout <= WAIT_FOREVER && g == if s.mutex.free then Seen else Missed
    ensures Acquiring(Fire(s, Step(t, choice)), t, s.threads[t].pc.timeout, s.threads[t].depth, g)
    ensures Fire(s, Step(t, choice)).mutex.recursive == s.mutex.recursive
  {
    OwnerIsInside(s, t);
    AdvanceKeepsInv(s, t, choice);
    SwapResult(s, t, choice);
  }

  /** A call that has seen the mutex active and finds the CSR taken, as a caller from inside always does: such
      a caller gets osOK exactly over a recursive mutex; any other one that will not wait is refused. */
  lemma MissedExactly(s: State, t: nat, choice: bool, es: seq<Event>)
    requires Inv(s) && t < |s.threads| && s.threads[t].status == Live && s.threads[t].pc.AcqSwap?
    requires s.threads[t].pc.timeout <= WAIT_FOREVER && Spans(Fire(s, Step(t, choice)), es, t)
    ensures s.threads[t].depth > 0 ==> !s.mutex.free
    ensures t < |After(Fire(s, Step(t, choice)), es).threads|
    ensures var s' := After(Fire(s, Step(t, choice)), es);
            var depth, th, timeout := s.threads[t].depth, s'.threads[t], s.threads[t].pc.timeout;
            !s.mutex.free && th.pc == Idle ==>
              && (depth > 0 ==> (th.last == OsOK <==> s.mutex.recursive))
              && (timeout == 0 ==> th.last == if depth > 0 && s.mutex.recursive then OsOK else OsErrorResource)
              && th.depth == depth + (if th.last == OsOK then 1 else 0)
  {
    var g := if s.mutex.free then Seen else Missed;
    OwnerIsInside(s, t);
    FirstSwap(s, t, choice, g);
    AcquireRun(Fire(s, Step(t, choice)), es, t, s.threads[t].pc.timeout, s.threads[t].depth, g);
  }

  // ---------- osMutexRelease ----------

  /** The places of a call of osMutexRelease; dead says that it began over a deleted mutex. */
  predicate ReleasePlace(th: Thread, m: Mutex, depth: nat, dead: bool) {
    if th.pc == Idle then
      && (dead ==> th.last == OsErrorParameter)
      && match th.last
         case OsOK => depth > 0 && th.depth == depth - 1
         case OsErrorParameter => !m.active && th.depth == depth
         case OsErrorResource => depth == 0 && th.depth == depth
         case _ => false
    else
      && (dead ==> th.pc == RelActive && !m.active)
      && match th.pc
         case RelActive => th.depth == depth
         case RelNull => th.depth == depth
         case RelOwner => th.depth == depth
         case RelDecRead => th.depth == depth > 0
         case RelDecWrite(_) => th.depth == depth > 0
         case RelCount => depth > 0 && th.depth == depth - 1
         case RelClear => depth > 0 && th.depth == depth - 1
         case RelFree => depth > 0 && th.depth == depth - 1
         case _ => false
  }

  ghost predicate InRelease(s: State, t: nat, depth: nat, dead: bool) {
    Inv(s) && t < |s.threads| && Present(s.threads[t]) && ReleasePlace(s.threads[t], s.mutex, depth, dead)
  }

  lemma ReleaseOwn(s: State, t: nat, choice: bool, depth: nat, dead: bool)
    requires InRelease(s, t, depth, dead) && s.threads[t].status == Live
    ensures var s' := Advance(s, t, choice);
            && |s'.threads| == |s.threads| && ReleasePlace(s'.threads[t], s'.mutex, depth, dead)
            && s'.threads[t].status == Live
  {
    OwnerIsInside(s, t);
    if s.flag == t { assert HolderOk(s, t); }
  }

  lemma ReleaseStays(s: State, s': State, t: nat, depth: nat, dead: bool)
    requires InRelease(s, t, depth, dead) && Inv(s') && (s'.mutex.active ==> s.mutex.active)
    requires |s'.threads| == |s.threads|
    requires Present(s'.threads[t]) && s'.threads[t] == s.threads[t].(status := s'.threads[t].status)
    ensures InRelease(s', t, depth, dead)
  {
  }

  lemma ReleaseFire(s: State, e: Event, t: nat, depth: nat, dead: bool)
    requires InRelease(s, t, depth, dead) && MayClean(s, e) && During(e, t)
    ensures InRelease(Fire(s, e), t, depth, dead)
  {
    DuringFire(s, e, t);
    if e.t == t && e.Step? && s.threads[t].status == Live {
      ReleaseOwn(s, t, e.choice, depth, dead);
    } else {
      ReleaseStays(s, Fire(s, e), t, depth, dead);
    }
  }

  lemma {:induction false} ReleaseRun(s: State, es: seq<Event>, t: nat, depth: nat, dead: bool)
    requires InRelease(s, t, depth, dead) && Spans(s, es, t)
    ensures InRelease(After(s, es), t, depth, dead)
    decreases |es|
  {
    if es != [] {
      SpansRest(s, es, t);
      ReleaseFire(s, es[0], t, depth, dead);
      ReleaseRun(Fire(s, es[0]), es[1..], t, depth, dead);
    }
  }

  /** A whole osMutexRelease: osOK exactly from inside, one level up, and from the outermost level the CSR is
      no longer the caller's; a deleted mutex fails the call, and only a deleted one does. */
  lemma ReleaseExactly(s: State, t: nat, es: seq<Event>)
    requires Inv(s) && t < |s.threads| && s.threads[t].status == Live && s.threads[t].pc == Idle
    requires Spans(Fire(s, Release(t)), es, t)
    ensures t < |After(Fire(s, Release(t)), es).threads|
    ensures var s' := After(Fire(s, Release(t)), es);
            var depth, th := s.threads[t].depth, s'.threads[t];
            th.pc == Idle ==>
              && (th.last == OsOK || th.last == OsErrorParameter || th.last == OsErrorResource)
              && (!s.mutex.active ==> th.last == OsErrorParameter)
              && (th.last == OsErrorParameter ==> !s'.mutex.active)
              && (th.last != OsErrorParameter ==> (th.last == OsOK <==> depth > 0))
              && th.depth == (if th.last == OsOK then depth - 1 else depth)
              && (th.depth == 0 ==> s'.flag != t)
  {
    var s' := After(Fire(s, Release(t)), es);
    BeginKeepsInv(s, Release(t));
    ReleaseRun(Fire(s, Release(t)), es, t, s.threads[t].depth, !s.mutex.active);
    if s'.flag == t { assert HolderOk(s', t); }
  }

  // ---------- a thread that ends inside ----------

  /** Nobody but t itself runs thread_clean for it. */
  ghost predicate NoneElse(s: State, t: nat) {
    forall c :: 0 <= c < |s.threads| && c != t ==> !Cleaning(s.threads[c].pc, t)
  }

  lemma AcquireLeaves(s: State, u: nat, choice: bool, t: nat)
    requires t < |s.threads| && u < |s.threads| && u != t && NoneElse(s, t) && !InClean(s.threads[u].pc)
    ensures NoneElse(AdvanceAcquire(s, u, choice), t)
  {
    var pc := s.threads[u].pc;
    if Swaps(pc) { SwapResult(s, u, choice); } else if Retakes(pc) { RetakeResult(s, u, choice); }
  }

  lemma ReleaseLeaves(s: State, u: nat, t: nat)
    requires t < |s.threads| && u < |s.threads| && u != t && NoneElse(s, t) && Releasing(s.threads[u].pc)
    ensures NoneElse(AdvanceRelease(s, u), t)
  {
  }

  lemma CleanLeaves(s: State, u: nat, t: nat)
    requires t < |s.threads| && u < |s.threads| && u != t && NoneElse(s, t) && InClean(s.threads[u].pc)
    ensures SameFor(s, AdvanceClean(s, u), t) && NoneElse(AdvanceClean(s, u), t)
  {
  }

  lemma OtherLeaves(s: State, e: Event, t: nat)
    requires t < |s.threads| && NoneElse(s, t) && Foreign(e, t) && !e.Step?
    ensures SameFor(s, Fire(s, e), t) && NoneElse(Fire(s, e), t)
  {
  }

  lemma ForeignLeaves(s: State, e: Event, t: nat)
    requires t < |s.threads| && NoneElse(s, t) && Foreign(e, t)
    ensures SameFor(s, Fire(s, e), t) && NoneElse(Fire(s, e), t)
  {
    if !e.Step? {
      OtherLeaves(s, e, t);
    } else if Fire(s, e) != s {
      var pc := s.threads[e.t].pc;
      if Releasing(pc) { ForeignRelease(s, e.t, t); ReleaseLeaves(s, e.t, t); }
      else if InClean(pc) { CleanLeaves(s, e.t, t); }
      else { ForeignAcquire(s, e.t, e.choice, t); AcquireLeaves(s, e.t, e.choice, t); }
    }
  }

  /** The places of a thread that exits. */
  predicate ExitPlace(th: Thread, m: Mutex, t: nat, depth: nat) {
    match th.pc
    case CleanOwner(v) => v == t && th.status == Leaving && th.depth == depth && !th.cleaned
    case CleanFlags(v, own) =>
      v == t && th.status == Leaving && th.depth == depth && !th.cleaned && (own <==> depth > 0)
    case CleanFree(v) => v == t && th.status == Leaving && th.depth == depth > 0 && !th.cleaned && m.robust
    case _ =>
      && th.pc == Idle && th.status == Gone
      && if th.cleaned then m.robust && depth > 0 && th.depth == 0
         else th.depth == depth && !(m.robust && m.active && depth > 0)
  }

  ghost predicate Exiting(s: State, t: nat, depth: nat) {
    && Inv(s) && t < |s.threads| && NoneElse(s, t) && ExitPlace(s.threads[t], s.mutex, t, depth)
  }

  lemma ExitOwn(s: State, t: nat, depth: nat)
    requires Exiting(s, t, depth) && s.threads[t].status == Leaving
    ensures var s' := Advance(s, t, true);
            && |s'.threads| == |s.threads| && ExitPlace(s'.threads[t], s'.mutex, t, depth) && NoneElse(s', t)
            && s'.mutex.robust == s.mutex.robust
    ensures forall choice :: Advance(s, t, choice) == AdvanceClean(s, t)
  {
    OwnerIsInside(s, t);
  }

  lemma ExitFire(s: State, e: Event, t: nat, depth: nat)
    requires Exiting(s, t, depth) && MayClean(s, e) && During(e, t)
    ensures Exiting(Fire(s, e), t, depth) && Fire(s, e).mutex.robust == s.mutex.robust
  {
    FireKeepsInv(s, e);
    if !s.mutex.active { InactiveStep(s, e); }
    if Foreign(e, t) { ForeignLeaves(s, e, t); } else if Fire(s, e) != s { ExitOwn(s, t, depth); }
  }

  lemma {:induction false} ExitRun(s: State, es: seq<Event>, t: nat, depth: nat)
    requires Exiting(s, t, depth) && Spans(s, es, t)
    ensures Exiting(After(s, es), t, depth) && After(s, es).mutex.robust == s.mutex.robust
    decreases |es|
  {
    if es != [] {
      SpansRest(s, es, t);
      ExitFire(s, es[0], t, depth);
      ExitRun(Fire(s, es[0]), es[1..], t, depth);
    }
  }

  lemma ExitBegins(s: State, t: nat)
    requires Inv(s) && t < |s.threads| && s.threads[t].status == Live && s.threads[t].pc == Idle
    ensures Exiting(Fire(s, Exit(t)), t, s.threads[t].depth) && Fire(s, Exit(t)).mutex == s.mutex
  {
    NobodyCleans(s, t);
    ExitKeepsInv(s, t);
  }

  /** A thread exits, whatever the others do meanwhile: from inside a robust mutex that is not deleted it
      leaves with the CSR freed; from inside one that is not robust it leaves with the CSR taken, and so it
      stays unless somebody terminates the thread once more; from outside it frees nothing. */
  lemma ExitExactly(s: State, t: nat, es: seq<Event>)
    requires Inv(s) && t < |s.threads| && s.threads[t].status == Live && s.threads[t].pc == Idle
    requires Spans(Fire(s, Exit(t)), es, t)
    ensures t < |After(Fire(s, Exit(t)), es).threads|
    ensures var s' := After(Fire(s, Exit(t)), es);
            var depth, th := s.threads[t].depth, s'.threads[t];
            th.pc == Idle ==>
              && th.status == Gone
              && (th.cleaned ==> s.mutex.robust && depth > 0 && th.depth == 0)
              && (s.mutex.robust && s'.mutex.active && depth > 0 ==> th.cleaned)
              && (!th.cleaned ==> th.depth == depth)
              && (if !th.cleaned && depth > 0 then !s'.mutex.free && s'.flag == t else s'.flag != t)
  {
    var s' := After(Fire(s, Exit(t)), es);
    ExitBegins(s, t);
    ExitRun(Fire(s, Exit(t)), es, t, s.threads[t].depth);
    if s'.flag == t { assert HolderOk(s', t); }
  }
}
