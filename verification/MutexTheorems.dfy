/** What every run of the mutex protocol guarantees, with and without threads that die holding it. */
module MutexTheorems {
  import opened MutexProtocol

  /** osMutexNew: free, no owner, every thread at rest. */
  function Fresh(n: nat, recursive: bool, robust: bool): State {
    State(Mutex(true, NOBODY, 0, true, recursive, robust), seq(n, _ => Thread(Idle, 0, Live, false, None)), NOBODY)
  }

  /** Each terminate names a thread that it may clean for. */
  ghost predicate Disciplined(s: State, es: seq<Event>)
    decreases |es|
  {
    es == [] || (MayClean(s, es[0]) && Disciplined(Fire(s, es[0]), es[1..]))
  }

  ghost function After(s: State, es: seq<Event>): State
    decreases |es|
  {
    if es == [] then s else After(Fire(s, es[0]), es[1..])
  }

  /** At most one thread is between a successful acquire and its final release. */
  ghost predicate MutualExclusion(s: State) {
    forall t, u :: 0 <= t < u < |s.threads| ==> s.threads[t].depth == 0 || s.threads[u].depth == 0
  }

  /** owner and count tell the truth: a free CSR has no owner, no thread is at the bad-status
      branch, and a thread at rest inside holds the CSR with owner and count its own. */
  ghost predicate Strict(s: State) {
    && Core(s)
    && (s.mutex.free ==> s.mutex.owner == NOBODY)
    && (forall t :: 0 <= t < |s.threads| && !s.threads[t].cleaned ==>
          && s.threads[t].pc != AcqBad
          && (s.threads[t].pc == AcqOwner || s.threads[t].pc == AcqSetOwner ==> s.mutex.owner == NOBODY)
          && (s.threads[t].pc == Idle && s.threads[t].depth > 0 ==>
                !s.mutex.free && s.mutex.owner == t && s.mutex.count == s.threads[t].depth))
  }

  lemma FreshInv(n: nat, recursive: bool, robust: bool)
    ensures Inv(Fresh(n, recursive, robust))
  {
  }

  lemma {:induction false} RunKeepsInv(s: State, es: seq<Event>)
    requires Inv(s) && Disciplined(s, es)
    ensures Inv(After(s, es))
    decreases |es|
  {
    if es != [] {
      FireKeepsInv(s, es[0]);
      RunKeepsInv(Fire(s, es[0]), es[1..]);
    }
  }

  /** Mutual exclusion in every run, for spinning, polling, trying and recursive callers mixed,
      threads stopped and resumed anywhere, and threads that exit or are terminated inside. */
  lemma AtMostOneInside(n: nat, recursive: bool, robust: bool, es: seq<Event>)
    requires Disciplined(Fresh(n, recursive, robust), es)
    ensures MutualExclusion(After(Fresh(n, recursive, robust), es))
  {
    FreshInv(n, recursive, robust);
    RunKeepsInv(Fresh(n, recursive, robust), es);
  }

  /** While no thread's CSR has been freed for it, owner and count tell the truth. */
  lemma StrictWithoutCleanup(s: State)
    requires Core(s) && forall t :: 0 <= t < |s.threads| ==> !s.threads[t].cleaned
    ensures Strict(s) && MutualExclusion(s)
  {
    forall t | 0 <= t < |s.threads|
      ensures s.threads[t].pc != AcqBad
      ensures s.threads[t].pc == AcqOwner || s.threads[t].pc == AcqSetOwner ==> s.mutex.owner == NOBODY
      ensures s.threads[t].pc == Idle && s.threads[t].depth > 0 ==>
                !s.mutex.free && s.mutex.owner == t && s.mutex.count == s.threads[t].depth
    {
      if s.flag == t { assert HolderOk(s, t); }
    }
  }

  // ---------- what the others' events leave alone ----------

  /** e neither is t's own event nor has t for a victim. */
  predicate Foreign(e: Event, t: nat) {
    e.t != t && !(e.Terminate? && e.victim == t)
  }

  predicate SameFor(s: State, s': State, t: nat)
    requires t < |s.threads|
  {
    |s'.threads| == |s.threads| && s'.threads[t] == s.threads[t]
    && s'.mutex.recursive == s.mutex.recursive && s'.mutex.robust == s.mutex.robust
  }

  lemma ForeignAcquire(s: State, u: nat, choice: bool, t: nat)
    requires t < |s.threads| && u < |s.threads| && u != t
    ensures SameFor(s, AdvanceAcquire(s, u, choice), t)
  {
    var pc := s.threads[u].pc;
    if Swaps(pc) { SwapResult(s, u, choice); } else if Retakes(pc) { RetakeResult(s, u, choice); }
  }

  lemma ForeignRelease(s: State, u: nat, t: nat)
    requires t < |s.threads| && u < |s.threads| && u != t
    ensures SameFor(s, AdvanceRelease(s, u), t)
  {
  }

  lemma ForeignClean(s: State, u: nat, t: nat)
    requires Inv(s) && t < |s.threads| && s.threads[t].status != Gone && u < |s.threads| && u != t
    requires InClean(s.threads[u].pc)
    ensures SameFor(s, AdvanceClean(s, u), t)
  {
    assert CleaningOk(s, u, s.threads[u].pc.victim);
  }

  /** What other threads do never moves t. */
  lemma ForeignKeeps(s: State, e: Event, t: nat)
    requires Inv(s) && t < |s.threads| && s.threads[t].status != Gone && Foreign(e, t)
    ensures SameFor(s, Fire(s, e), t)
  {
    if e.Step? && e.t < |s.threads| {
      var pc := s.threads[e.t].pc;
      if Releasing(pc) { ForeignRelease(s, e.t, t); }
      else if InClean(pc) { ForeignClean(s, e.t, t); }
      else { ForeignAcquire(s, e.t, e.choice, t); }
    }
  }

  // ---------- a mutex without the robust attribute: every run, whomever a terminate names ----------

  predicate NeverCleaned(s: State) {
    !s.mutex.robust && forall t :: 0 <= t < |s.threads| ==> !s.threads[t].cleaned && !s.threads[t].pc.CleanFree?
  }

  lemma NonRobustSwap(s: State, t: nat, choice: bool)
    requires Core(s) && NeverCleaned(s) && t < |s.threads| && Swaps(s.threads[t].pc)
    ensures Core(AdvanceAcquire(s, t, choice)) && NeverCleaned(AdvanceAcquire(s, t, choice))
  {
    SwapResult(s, t, choice);
    if s.flag != NOBODY { assert HolderOk(s, s.flag); }
  }

  lemma NonRobustRetake(s: State, t: nat, choice: bool)
    requires Core(s) && NeverCleaned(s) && t < |s.threads| && Retakes(s.threads[t].pc)
    ensures Core(AdvanceAcquire(s, t, choice)) && NeverCleaned(AdvanceAcquire(s, t, choice))
  {
    RetakeResult(s, t, choice);
    if s.flag != NOBODY { assert HolderOk(s, s.flag); }
  }

  lemma NonRobustAcquire(s: State, t: nat, choice: bool)
    requires Core(s) && NeverCleaned(s) && t < |s.threads| && !Releasing(s.threads[t].pc) && !InClean(s.threads[t].pc)
    ensures Core(AdvanceAcquire(s, t, choice)) && NeverCleaned(AdvanceAcquire(s, t, choice))
  {
    var pc := s.threads[t].pc;
    if Swaps(pc) { NonRobustSwap(s, t, choice); }
    else if Retakes(pc) { NonRobustRetake(s, t, choice); }
    else if s.flag != NOBODY { assert HolderOk(s, s.flag); }
  }

  lemma NonRobustRelease(s: State, t: nat)
    requires Core(s) && NeverCleaned(s) && t < |s.threads| && Releasing(s.threads[t].pc)
    ensures Core(AdvanceRelease(s, t)) && NeverCleaned(AdvanceRelease(s, t))
  {
    if s.flag != NOBODY { assert HolderOk(s, s.flag); }
  }

  lemma NonRobustClean(s: State, t: nat)
    requires Core(s) && NeverCleaned(s) && t < |s.threads| && InClean(s.threads[t].pc)
    ensures Core(AdvanceClean(s, t)) && NeverCleaned(AdvanceClean(s, t))
  {
    if s.flag != NOBODY { assert HolderOk(s, s.flag); }
  }

  lemma NonRobustStep(s: State, e: Event)
    requires Core(s) && NeverCleaned(s)
    ensures Core(Fire(s, e)) && NeverCleaned(Fire(s, e))
  {
    if !e.Step? {
      FireNoAccess(s, e);
      CoreStays(s, Fire(s, e));
    } else if Fire(s, e) != s {
      var pc := s.threads[e.t].pc;
      if Releasing(pc) { NonRobustRelease(s, e.t); }
      else if InClean(pc) { NonRobustClean(s, e.t); }
      else { NonRobustAcquire(s, e.t, e.choice); }
    }
  }

  lemma {:induction false} NonRobustRun(s: State, es: seq<Event>)
    requires Core(s) && NeverCleaned(s)
    ensures Core(After(s, es)) && NeverCleaned(After(s, es))
    decreases |es|
  {
    if es != [] {
      NonRobustStep(s, es[0]);
      NonRobustRun(Fire(s, es[0]), es[1..]);
    }
  }

  /** In every run, whatever its threads do and whomever they terminate: at most one thread is inside,
      a free CSR has no owner, count is the nesting depth at rest, and "Bad mutex status" is never
      reached. */
  lemma NonRobustStrict(n: nat, recursive: bool, es: seq<Event>)
    ensures Strict(After(Fresh(n, recursive, false), es)) && MutualExclusion(After(Fresh(n, recursive, false), es))
  {
    NonRobustRun(Fresh(n, recursive, false), es);
    StrictWithoutCleanup(After(Fresh(n, recursive, false), es));
  }

  // ---------- what the calls return ----------

  /** Releasing is refused exactly to a thread that is not inside. */
  lemma ReleaseRefusedExactly(s: State, t: nat, choice: bool)
    requires Inv(s) && t < |s.threads| && Runs(s.threads[t])
    requires (s.threads[t].pc == RelNull || s.threads[t].pc == RelOwner)
    ensures var th' := Advance(s, t, choice).threads[t];
            && (s.threads[t].pc == RelOwner ==> (th'.pc == Idle <==> s.threads[t].depth == 0))
            && (th'.pc == Idle ==> th'.last == OsErrorResource && s.threads[t].depth == 0)
            && (th'.pc != Idle ==> th'.pc == RelOwner || (th'.pc == RelDecRead && s.threads[t].depth > 0))
  {
    if s.flag == t { assert HolderOk(s, t); } else { NotOwner(s, t); }
  }

  /** An acquire returns osOK exactly when it has taken the thread one level deeper; any other result
      leaves the thread where it was. */
  lemma AcquireResult(s: State, t: nat, choice: bool)
    requires Inv(s) && t < |s.threads| && Runs(s.threads[t])
    requires s.threads[t].pc != Idle && !Releasing(s.threads[t].pc) && !InClean(s.threads[t].pc)
    requires Advance(s, t, choice).threads[t].pc == Idle
    ensures var th' := Advance(s, t, choice).threads[t];
            && (th'.last == OsOK <==> th'.depth == s.threads[t].depth + 1)
            && (th'.last != OsOK ==> th'.depth == s.threads[t].depth)
            && (th'.last == OsErrorTimeout ==> !s.mutex.free)
  {
    if s.flag == t { assert HolderOk(s, t); }
  }

  // ---------- after a thread died holding a robust mutex ----------

  /** The owner field names a thread whose CSR was freed for it. */
  predicate Stale(s: State) {
    0 <= s.mutex.owner < |s.threads| && s.threads[s.mutex.owner].cleaned
  }

  /** Until t's next access nobody can touch owner, for t has the flag. */
  lemma ForeignKeepsStale(s: State, e: Event, t: nat)
    requires Inv(s) && MayClean(s, e) && t < |s.threads| && s.threads[t].status == Live && Foreign(e, t)
    requires s.threads[t].pc == AcqOwner || s.threads[t].pc == AcqBad
    requires Stale(s)
    ensures Inv(Fire(s, e)) && SameFor(s, Fire(s, e), t) && Stale(Fire(s, e)) && Fire(s, e).mutex.owner == s.mutex.owner
  {
    FireKeepsInv(s, e);
    ForeignKeeps(s, e, t);
    if !e.Step? {
      FireNoAccess(s, e);
    } else if Fire(s, e) != s {
      OwnerKept(s, e.t, e.choice, t);
    }
  }

  /** A thread without the flag writes neither owner nor a cleaned mark while t, who has it, runs. */
  lemma OwnerKept(s: State, u: nat, choice: bool, t: nat)
    requires Inv(s) && t < |s.threads| && s.threads[t].status == Live && s.flag == t && Holding(s.threads[t].pc)
    requires u < |s.threads| && u != t && Runs(s.threads[u])
    ensures var s' := Advance(s, u, choice);
            && s'.mutex.owner == s.mutex.owner && |s'.threads| == |s.threads|
            && forall v :: 0 <= v < |s.threads| ==> s'.threads[v].cleaned == s.threads[v].cleaned
  {
    var pc := s.threads[u].pc;
    if InClean(pc) { assert CleaningOk(s, u, pc.victim); }
    else if Swaps(pc) { SwapResult(s, u, choice); }
    else if Retakes(pc) { RetakeResult(s, u, choice); }
  }

  ghost predicate AllForeign(es: seq<Event>, t: nat) {
    forall i :: 0 <= i < |es| ==> Foreign(es[i], t)
  }

  lemma {:induction false} ForeignRunKeepsStale(s: State, es: seq<Event>, t: nat)
    requires Inv(s) && Disciplined(s, es) && AllForeign(es, t) && t < |s.threads| && s.threads[t].status == Live
    requires s.threads[t].pc == AcqOwner || s.threads[t].pc == AcqBad
    requires Stale(s)
    ensures var s' := After(s, es); Inv(s') && SameFor(s, s', t) && Stale(s') && s'.mutex.owner == s.mutex.owner
    decreases |es|
  {
    if es != [] {
      ForeignKeepsStale(s, es[0], t);
      ForeignRunKeepsStale(Fire(s, es[0]), es[1..], t);
    }
  }

  lemma ReadsStale(s: State, t: nat, choice: bool)
    requires Inv(s) && t < |s.threads| && s.threads[t].status == Live && s.threads[t].pc == AcqOwner && Stale(s)
    ensures Fire(s, Step(t, choice)) == Goto(s, t, AcqBad)
    ensures Inv(Goto(s, t, AcqBad)) && Stale(Goto(s, t, AcqBad))
  {
    AdvanceKeepsInv(s, t, choice);
  }

  lemma FreesStale(s: State, t: nat, choice: bool)
    requires Inv(s) && t < |s.threads| && s.threads[t].status == Live && s.threads[t].pc == AcqBad
    ensures Fire(s, Step(t, choice)) == Put(Freed(s), t, s.threads[t].(pc := Idle, last := OsError)) && !s.mutex.free
  {
  }

  /** The direct path over a stale owner: t has just swapped the CSR away. Whatever the others do before,
      between and after its two accesses, the call fails with osError, hands the CSR back, and leaves
      owner as it was. */
  lemma DirectPathHandsBack(s: State, t: nat, es1: seq<Event>, es2: seq<Event>, c1: bool, c2: bool)
    requires Inv(s) && t < |s.threads| && s.threads[t].status == Live && s.threads[t].pc == AcqOwner && Stale(s)
    requires Disciplined(s, es1) && AllForeign(es1, t)
    requires var s1 := Fire(After(s, es1), Step(t, c1)); Disciplined(s1, es2) && AllForeign(es2, t)
    ensures var s2 := After(Fire(After(s, es1), Step(t, c1)), es2);
            var s3 := Fire(s2, Step(t, c2));
            && t < |s3.threads| && !s2.mutex.free && s3.mutex.free && s3.mutex == s2.mutex.(free := true)
            && s3.mutex.owner == s.mutex.owner
            && s3.threads[t] == s.threads[t].(pc := Idle, last := OsError)
  {
    ForeignRunKeepsStale(s, es1, t);
    var s1 := After(s, es1);
    ReadsStale(s1, t, c1);
    ForeignRunKeepsStale(Goto(s1, t, AcqBad), es2, t);
    FreesStale(After(Goto(s1, t, AcqBad), es2), t, c2);
  }

  /** A wait path overwrites the stale owner, and the truth is restored. */
  lemma WaitPathRestores(s: State, t: nat, choice: bool)
    requires Inv(s) && t < |s.threads| && Runs(s.threads[t]) && s.threads[t].pc == AcqSetOwner
    ensures var s1 := Advance(s, t, choice);
            && Inv(s1) && Strict(s1) && s1.mutex.owner == t
            && var s2 := Advance(s1, t, choice);
               && Inv(s2) && Strict(s2) && s2.mutex.owner == t && s2.mutex.count == 1
               && s2.threads[t] == s.threads[t].(pc := Idle, depth := 1, last := OsOK)
  {
    var s1 := Advance(s, t, choice);
    AdvanceKeepsInv(s, t, choice);
    AdvanceKeepsInv(s1, t, choice);
    OwnedIsStrict(s1, t);
    OwnedIsStrict(Advance(s1, t, choice), t);
  }

  lemma OwnedIsStrict(s: State, t: nat)
    requires Inv(s) && t < |s.threads| && s.flag == t && s.mutex.owner == t && !s.threads[t].cleaned
    ensures Strict(s)
  {
  }

  /** The part of Strict that Inv does not give by itself. */
  predicate Truthful(s: State) {
    && (s.flag == NOBODY ==> s.mutex.owner == NOBODY)
    && (0 <= s.flag < |s.threads| ==>
          && s.threads[s.flag].pc != AcqBad
          && (s.threads[s.flag].pc == AcqOwner || s.threads[s.flag].pc == AcqSetOwner ==> s.mutex.owner == NOBODY))
  }

  lemma StrictIsTruthful(s: State)
    requires Inv(s)
    ensures Strict(s) <==> Truthful(s)
  {
    forall t | 0 <= t < |s.threads| && t == s.flag ensures HolderOk(s, t) {}
  }

  lemma AcquireTruthful(s: State, t: nat, choice: bool)
    requires Inv(s) && Truthful(s) && t < |s.threads| && Runs(s.threads[t]) && !InClean(s.threads[t].pc)
    ensures Truthful(AdvanceAcquire(s, t, choice))
  {
    if s.flag == t { assert HolderOk(s, t); }
  }

  lemma ReleaseTruthful(s: State, t: nat)
    requires Inv(s) && Truthful(s) && t < |s.threads| && Runs(s.threads[t]) && Releasing(s.threads[t].pc)
    ensures Truthful(AdvanceRelease(s, t))
  {
    if s.flag == t { assert HolderOk(s, t); }
  }

  lemma CleanTruthful(s: State, t: nat)
    requires Inv(s) && Truthful(s) && t < |s.threads| && Runs(s.threads[t]) && InClean(s.threads[t].pc)
    requires !s.threads[t].pc.CleanFree?
    ensures Truthful(AdvanceClean(s, t))
  {
  }

  lemma OtherTruthful(s: State, e: Event)
    requires Inv(s) && Truthful(s) && !e.Step?
    ensures Truthful(Fire(s, e))
  {
  }

  /** thread_clean frees the CSR for its victim. */
  predicate FreesForVictim(s: State, e: Event) {
    e.Step? && e.t < |s.threads| && Runs(s.threads[e.t]) && s.threads[e.t].pc.CleanFree?
  }

  /** Only that makes owner and count tell an untruth, and it always does. */
  lemma StrictStep(s: State, e: Event)
    requires Inv(s) && Strict(s) && MayClean(s, e)
    ensures Strict(Fire(s, e)) <==> !FreesForVictim(s, e)
  {
    FireKeepsInv(s, e);
    StrictIsTruthful(s);
    if FreesForVictim(s, e) {
      assert CleaningOk(s, e.t, s.threads[e.t].pc.victim);
    } else if !e.Step? {
      OtherTruthful(s, e);
    } else if Fire(s, e) != s {
      var pc := s.threads[e.t].pc;
      if Releasing(pc) { ReleaseTruthful(s, e.t); }
      else if InClean(pc) { CleanTruthful(s, e.t); }
      else { AcquireTruthful(s, e.t, e.choice); }
    }
    StrictIsTruthful(Fire(s, e));
  }

  ghost predicate NothingFreed(s: State, es: seq<Event>)
    decreases |es|
  {
    es == [] || (!FreesForVictim(s, es[0]) && NothingFreed(Fire(s, es[0]), es[1..]))
  }

  /** The truth, once restored, lasts over every run until the next cleanup frees the CSR. */
  lemma {:induction false} StrictRun(s: State, es: seq<Event>)
    requires Inv(s) && Strict(s) && Disciplined(s, es) && NothingFreed(s, es)
    ensures Inv(After(s, es)) && Strict(After(s, es))
    decreases |es|
  {
    if es != [] {
      FireKeepsInv(s, es[0]);
      StrictStep(s, es[0]);
      StrictRun(Fire(s, es[0]), es[1..]);
    }
  }
}
