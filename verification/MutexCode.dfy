/** osMutexAcquire and osMutexRelease as written, running on shared fields that other threads change
    before every access. Each access is proved to be the step MutexProtocol gives the thread there,
    so whatever is proved of the protocol's runs holds of this code. */
module MutexCode {
  import opened Numbers
  import opened MutexProtocol
  import opened MutexTheorems
  import MutexCalls
  import Polling

  /** Where a swap takes a thread. */
  function AfterSwap(th: Thread, got: bool, more: bool): Thread {
    if got then th.(pc := if th.pc.AcqSwap? then AcqOwner else AcqSetOwner)
    else match th.pc
      case AcqSwap(timeout) => th.(pc := AcqFailOwner(timeout))
      case WaitSpin => if more then th else th.(pc := Idle, last := OsErrorTimeout)
      case WaitPoll(timeout, all) =>
        if AddTime(all, timeout) < timeout then th.(pc := WaitPoll(timeout, AddTime(all, timeout)))
        else th.(pc := Idle, last := OsErrorTimeout)
      case _ => th
  }

  predicate ReadsOwner(pc: Pc) { pc == AcqOwner || pc.AcqFailOwner? || pc == RelNull || pc == RelOwner }

  /** Where reading owner takes a thread. */
  function AfterOwner(th: Thread, t: int, owner: int, recursive: bool): Thread {
    match th.pc
    case AcqOwner => th.(pc := if owner == NOBODY then AcqSetOwner else AcqBad)
    case AcqFailOwner(timeout) =>
      if owner == t && recursive then th.(pc := AcqIncRead)
      else if timeout == 0 then th.(pc := Idle, last := OsErrorResource)
      else th.(pc := if timeout == WAIT_FOREVER then WaitForever else AcqHow(timeout))
    case RelNull => if owner == NOBODY then th.(pc := Idle, last := OsErrorResource) else th.(pc := RelOwner)
    case RelOwner => if owner != t then th.(pc := Idle, last := OsErrorResource) else th.(pc := RelDecRead)
    case _ => th
  }

  function AfterActive(th: Thread, active: bool): Thread {
    if !active then th.(pc := Idle, last := OsErrorParameter)
    else th.(pc := if th.pc.AcqActive? then AcqSwap(th.pc.timeout) else RelNull)
  }

  function AfterCount(th: Thread, count: int): Thread {
    if th.pc == AcqIncRead then th.(pc := AcqIncWrite(count))
    else if th.pc == RelDecRead then th.(pc := RelDecWrite(count))
    else if count == 0 then th.(pc := RelClear)
    else th.(pc := Idle, last := OsOK)
  }

  function AfterWriteCount(th: Thread): Thread {
    if th.pc == AcqSetCount then th.(pc := Idle, depth := 1, last := OsOK)
    else if th.pc.AcqIncWrite? then th.(pc := Idle, depth := th.depth + 1, last := OsOK)
    else th.(pc := RelCount, depth := Less(th.depth))
  }

  /** The k-th look at the clock is the first that does not go on. */
  ghost predicate FirstLook(timeout: nat, clock: nat -> nat, k: nat) {
    && k > 0 && !Polling.GoesOn(timeout, clock(0), clock(k))
    && forall j :: 0 < j < k ==> Polling.GoesOn(timeout, clock(0), clock(j))
  }

  /** The k-th poll is the first at which the summed periods reach the timeout. */
  ghost predicate FirstPoll(timeout: nat, k: nat) {
    k > 0 && Polling.AllTime(timeout, k) >= timeout && forall j :: 0 < j < k ==> Polling.AllTime(timeout, j) < timeout
  }

  /** When a wait that never finds the CSR free gives up, if it does. */
  ghost predicate TimeIsUp(timeout: nat, spins: bool, clock: nat -> nat) {
    if spins then exists k :: FirstLook(timeout, clock, k) else exists k :: FirstPoll(timeout, k)
  }

  class Board {
    // the CSR and the fields of mutex_state
    var free: bool
    var owner: int
    var count: int
    var active: bool
    const recursive: bool
    const robust: bool
    // the protocol's bookkeeping
    var threads: seq<Thread>
    var flag: int
    // what the other threads do before each access
    var bursts: seq<seq<Event>>

    function Sys(): State
      reads this
    {
      State(Mutex(free, owner, count, active, recursive, robust), threads, flag)
    }

    /** Thread t can run here, and th is what is known of it. */
    ghost predicate Ready(t: nat, th: Thread)
      reads this
    {
      Inv(Sys()) && t < |threads| && threads[t] == th && th.status == Live
    }

    constructor (n: nat, recursive: bool, robust: bool, bursts: seq<seq<Event>>)
      ensures Inv(Sys()) && |threads| == n && forall t: nat :: t < n ==> Ready(t, Thread(Idle, 0, Live, false, None))
    {
      free, owner, count, active := true, NOBODY, 0, true;
      this.recursive, this.robust := recursive, robust;
      threads, flag, this.bursts := seq(n, _ => Thread(Idle, 0, Live, false, None)), NOBODY, bursts;
    }

    /** The other threads run for a while. */
    method Others(t: nat)
      requires t < |threads| && Ready(t, threads[t])
      modifies this
      ensures Ready(t, old(threads[t])) && (active ==> old(active))
      ensures bursts == if old(bursts) == [] then [] else old(bursts)[1..]
    {
      if bursts == [] { return; }
      var es := bursts[0];
      bursts := bursts[1..];
      var i := 0;
      while i < |es|
        invariant 0 <= i <= |es|
        invariant Ready(t, old(threads[t])) && (active ==> old(active))
        invariant bursts == old(bursts)[1..]
      {
        if Foreign(es[i], t) && MayClean(Sys(), es[i]) {
          Other(t, es[i]);
        }
        i := i + 1;
      }
    }

    /** One event of the others. */
    method Other(t: nat, e: Event)
      requires t < |threads| && Ready(t, threads[t]) && Foreign(e, t) && MayClean(Sys(), e)
      modifies this
      ensures Ready(t, old(threads[t])) && (active ==> old(active)) && bursts == old(bursts)
    {
      FireKeepsInv(Sys(), e);
      if !active { MutexCalls.InactiveStep(Sys(), e); }
      ForeignKeeps(Sys(), e, t);
      var s := Fire(Sys(), e);
      free, owner, count, active := s.mutex.free, s.mutex.owner, s.mutex.count, s.mutex.active;
      threads, flag := s.threads, s.flag;
    }

    /** t has just made the access its place calls for: the fields must be what the protocol's step
        leaves, and the bookkeeping follows. */
    method Mark(s: State, t: nat, choice: bool)
      requires Inv(s) && t < |s.threads| && s.threads[t].status == Live
      requires Sys().mutex == Advance(s, t, choice).mutex
      modifies `threads, `flag
      ensures Sys() == Advance(s, t, choice) && Inv(Sys())
    {
      var s' := Advance(s, t, choice);
      threads, flag := s'.threads, s'.flag;
      AdvanceKeepsInv(s, t, choice);
    }

    /** swap_mutex_csr(csr_addr, FLEXPRET_MUTEX_INACTIVE) == FLEXPRET_MUTEX_ACTIVE */
    method SwapCsr(t: nat, more: bool) returns (got: bool)
      requires t < |threads| && Ready(t, threads[t])
      requires Swaps(threads[t].pc)
      modifies this
      ensures Ready(t, AfterSwap(old(threads[t]), got, more)) && !free
      ensures |bursts| == if old(bursts) == [] then 0 else |old(bursts)| - 1
    {
      Others(t);
      var s := Sys();
      got := free;
      free := false;
      SwapIs(s, t, more);
      Mark(s, t, more);
    }

    /** write_mutex_csr(csr_addr, FLEXPRET_MUTEX_ACTIVE) */
    method FreeCsr(t: nat)
      requires t < |threads| && Ready(t, threads[t]) && (threads[t].pc == AcqBad || threads[t].pc == RelFree)
      modifies this
      ensures Ready(t, old(threads[t]).(pc := Idle, last := if old(threads[t].pc) == AcqBad then OsError else OsOK))
      ensures free
    {
      Others(t);
      var s := Sys();
      free := true;
      Mark(s, t, true);
    }

    method ReadActive(t: nat) returns (v: bool)
      requires t < |threads| && Ready(t, threads[t]) && (threads[t].pc.AcqActive? || threads[t].pc == RelActive)
      modifies this
      ensures Ready(t, AfterActive(old(threads[t]), v)) && v == active && (v ==> old(active))
    {
      Others(t);
      v := active;
      Mark(Sys(), t, true);
    }

    method ReadOwner(t: nat) returns (v: int)
      requires t < |threads| && Ready(t, threads[t])
      requires ReadsOwner(threads[t].pc)
      modifies this
      ensures Ready(t, AfterOwner(old(threads[t]), t, v, recursive)) && v == owner
      ensures v == t ==> old(threads[t].depth) > 0
      ensures old(threads[t].pc) != AcqOwner && v != t ==> old(threads[t].depth) == 0
    {
      Others(t);
      v := owner;
      OwnerMeans(Sys(), t);
      OwnerReadIs(Sys(), t);
      Mark(Sys(), t, true);
    }

    method ReadCount(t: nat) returns (v: int)
      requires t < |threads| && Ready(t, threads[t])
      requires threads[t].pc == AcqIncRead || threads[t].pc == RelDecRead || threads[t].pc == RelCount
      modifies this
      ensures Ready(t, AfterCount(old(threads[t]), v)) && v == count
    {
      Others(t);
      v := count;
      Mark(Sys(), t, true);
    }

    method ReadIfSpin(t: nat, ifSpin: bool) returns (v: bool)
      requires t < |threads| && Ready(t, threads[t]) && threads[t].pc.AcqHow?
      modifies this
      ensures v == ifSpin
      ensures Ready(t, old(threads[t]).(pc := if v then WaitSpin else WaitPoll(old(threads[t]).pc.timeout, 0)))
    {
      Others(t);
      v := ifSpin;
      Mark(Sys(), t, v);
    }

    method WriteOwner(t: nat, v: int)
      requires t < |threads| && Ready(t, threads[t])
      requires (threads[t].pc == AcqSetOwner && v == t) || (threads[t].pc == RelClear && v == NOBODY)
      modifies this
      ensures Ready(t, old(threads[t]).(pc := if old(threads[t].pc) == RelClear then RelFree else AcqSetCount))
      ensures owner == v
    {
      Others(t);
      var s := Sys();
      owner := v;
      Mark(s, t, true);
    }

    method WriteCount(t: nat, v: int)
      requires t < |threads| && Ready(t, threads[t])
      requires (threads[t].pc == AcqSetCount && v == 1) || threads[t].pc == AcqIncWrite(v - 1)
               || threads[t].pc == RelDecWrite(v + 1)
      modifies this
      ensures Ready(t, AfterWriteCount(old(threads[t]))) && count == v
    {
      Others(t);
      var s := Sys();
      count := v;
      Mark(s, t, true);
    }

    /** The tail shared by every successful path: owner = osThreadGetId(); count = 1. */
    method Own(t: nat)
      requires t < |threads| && Ready(t, threads[t]) && threads[t].pc == AcqSetOwner
      modifies this
      ensures Ready(t, old(threads[t]).(pc := Idle, depth := 1, last := OsOK))
    {
      WriteOwner(t, t);
      WriteCount(t, 1);
    }

    /** The same at the end of a wait. */
    method OwnAfterWait(t: nat)
      requires t < |threads| && Ready(t, threads[t]) && threads[t].pc == AcqSetOwner
      modifies this
      ensures Ready(t, old(threads[t]).(pc := Idle, depth := old(threads[t].depth) + 1, last := OsOK))
      ensures old(threads[t].depth) == 0
    {
      DepthZero(Sys(), t);
      Own(t);
    }

    /** osMutexAcquire. spins and clock stand for ifSpin and for the times that get_time() gives, look
        by look; None is a wait that outlasts the run. The call has taken t one level deeper exactly when
        it returns OsOK. A deleted mutex fails it; a thread already inside gets OsOK exactly over a recursive
        mutex; a refusal and a time-out tell the timeout, and the latter comes at the first look or poll at
        which the time is up. */
    method OsMutexAcquire(t: nat, timeout: nat, spins: bool, clock: nat -> nat) returns (r: Result)
      requires t < |threads| && Ready(t, threads[t]) && threads[t].pc == Idle && timeout <= WAIT_FOREVER
      modifies this
      ensures t < |threads| && Ready(t, threads[t])
      ensures if r == None then bursts == [] else threads[t].pc == Idle && threads[t].last == r
      ensures threads[t].depth == old(threads[t].depth) + if r == OsOK then 1 else 0
      ensures old(threads[t].depth) > 0 && r != OsErrorParameter ==> (r == OsOK <==> recursive)
      ensures old(threads[t].depth) > 0 && r != OsErrorParameter && timeout == 0 ==>
                (r == OsErrorResource <==> !recursive)
      ensures (r == OsErrorResource ==> timeout == 0) && (r == None ==> timeout > 0)
      ensures r == OsErrorTimeout ==> 0 < timeout < WAIT_FOREVER && TimeIsUp(timeout, spins, clock)
      ensures r == OsError ==> old(threads[t].depth) == 0
      ensures (!old(active) ==> r == OsErrorParameter) && (r == OsErrorParameter ==> !active)
    {
      Begin(t, Acquire(t, timeout));
      var isActive := ReadActive(t);
      if !isActive {
        return OsErrorParameter;
      }
      var got := SwapCsr(t, true);
      if got {
        r := AfterGetting(t);
      } else {
        r := AfterMissing(t, timeout, spins, clock);
      }
    }

    /** The CSR was taken: by the caller itself, or by somebody it may wait for. */
    method AfterMissing(t: nat, timeout: nat, spins: bool, clock: nat -> nat) returns (r: Result)
      requires t < |threads| && Ready(t, threads[t]) && threads[t].pc == AcqFailOwner(timeout)
      requires timeout <= WAIT_FOREVER
      modifies this
      ensures t < |threads| && Ready(t, threads[t])
      ensures if r == None then bursts == [] else threads[t].pc == Idle && threads[t].last == r
      ensures threads[t].depth == old(threads[t].depth) + if r == OsOK then 1 else 0
      ensures old(threads[t].depth) > 0 ==> (r == OsOK <==> recursive)
      ensures old(threads[t].depth) > 0 && timeout == 0 ==>
                (r == OsErrorResource <==> !recursive)
      ensures (r == OsErrorResource ==> timeout == 0) && (r == None ==> timeout > 0)
      ensures r == OsErrorTimeout ==> 0 < timeout < WAIT_FOREVER && TimeIsUp(timeout, spins, clock)
      ensures r != OsErrorParameter && r != OsError
    {
      var o := ReadOwner(t);
      if o == t && recursive {
        var c := ReadCount(t);
        WriteCount(t, c + 1);
        return OsOK;
      } else if timeout == 0 {
        return OsErrorResource;
      } else {
        r := Await(t, timeout, spins, clock);
      }
    }

    /** A call begins. */
    method Begin(t: nat, e: Event)
      requires t < |threads| && Ready(t, threads[t]) && threads[t].pc == Idle && e.t == t
      requires (e.Acquire? && e.timeout <= WAIT_FOREVER) || e.Release?
      modifies `threads
      ensures Ready(t, old(threads[t]).(pc := if e.Acquire? then AcqActive(e.timeout) else RelActive))
    {
      BeginKeepsInv(Sys(), e);
      threads := threads[t := threads[t].(pc := if e.Acquire? then AcqActive(e.timeout) else RelActive)];
    }

    /** The direct path: the CSR was free. */
    method AfterGetting(t: nat) returns (r: Result)
      requires t < |threads| && Ready(t, threads[t]) && threads[t].pc == AcqOwner
      modifies this
      ensures r == OsOK || r == OsError
      ensures Ready(t, old(threads[t]).(pc := Idle, last := r,
                                        depth := old(threads[t].depth) + if r == OsOK then 1 else 0))
    {
      DepthZero(Sys(), t);
      var o := ReadOwner(t);
      if o == NOBODY {
        Own(t);
        return OsOK;
      } else {
        FreeCsr(t);
        return OsError;
      }
    }

    /** The three waiting loops. */
    method Await(t: nat, timeout: nat, spins: bool, clock: nat -> nat) returns (r: Result)
      requires t < |threads| && Ready(t, threads[t])
      requires threads[t].pc == if timeout == WAIT_FOREVER then WaitForever else AcqHow(timeout)
      requires 0 < timeout <= WAIT_FOREVER
      modifies this
      ensures t < |threads| && Ready(t, threads[t])
      ensures if r == None then bursts == [] else threads[t].pc == Idle && threads[t].last == r
      ensures threads[t].depth == old(threads[t].depth) + if r == OsOK then 1 else 0
      ensures r == None || r == OsOK || r == OsErrorTimeout
      ensures r == OsErrorTimeout ==> timeout < WAIT_FOREVER && TimeIsUp(timeout, spins, clock)
      ensures r == OsOK ==> old(threads[t].depth) == 0
    {
      if timeout == WAIT_FOREVER {
        r := AcquireForever(t);
      } else {
        var spin := ReadIfSpin(t, spins);
        if spin {
          var looks;
          r, looks := AcquireSpinning(t, timeout, clock);
        } else {
          var polls;
          r, polls := AcquirePolling(t, timeout);
        }
      }
    }

    method AcquireForever(t: nat) returns (r: Result)
      requires t < |threads| && Ready(t, threads[t]) && threads[t].pc == WaitForever
      modifies this
      ensures t < |threads| && Ready(t, threads[t])
      ensures if r == None then bursts == [] else r == OsOK && threads[t].pc == Idle && threads[t].last == r
      ensures threads[t].depth == old(threads[t].depth) + if r == OsOK then 1 else 0
      ensures r == OsOK ==> old(threads[t].depth) == 0
    {
      while bursts != []
        invariant Ready(t, old(threads[t]))
        decreases |bursts|
      {
        var got := SwapCsr(t, true);
        if got {
          OwnAfterWait(t);
          return OsOK;
        }
      }
      return None;
    }

    /** The first time read is ctime; after every swap that misses there is one more look. */
    method AcquireSpinning(t: nat, timeout: nat, clock: nat -> nat) returns (r: Result, looks: nat)
      requires t < |threads| && Ready(t, threads[t]) && threads[t].pc == WaitSpin
      modifies this
      ensures t < |threads| && Ready(t, threads[t])
      ensures if r == None then bursts == [] else threads[t].pc == Idle && threads[t].last == r
      ensures threads[t].depth == old(threads[t].depth) + if r == OsOK then 1 else 0
      ensures r == OsOK ==> old(threads[t].depth) == 0
      ensures r == None || r == OsOK || r == OsErrorTimeout
      ensures r == OsErrorTimeout ==> FirstLook(timeout, clock, looks)
      ensures r != OsErrorTimeout ==> forall k :: 1 <= k <= looks ==> Polling.GoesOn(timeout, clock(0), clock(k))
    {
      looks := 0;
      while bursts != []
        invariant Ready(t, old(threads[t]))
        invariant forall k :: 1 <= k <= looks ==> Polling.GoesOn(timeout, clock(0), clock(k))
        decreases |bursts|
      {
        var more := Polling.GoesOn(timeout, clock(0), clock(looks + 1));
        var got := SwapCsr(t, more);
        if got {
          OwnAfterWait(t);
          return OsOK, looks;
        }
        looks := looks + 1;
        if !more {
          return OsErrorTimeout, looks;
        }
      }
      return None, looks;
    }

    /** polls counts the swaps that missed. */
    method AcquirePolling(t: nat, timeout: nat) returns (r: Result, polls: nat)
      requires t < |threads| && Ready(t, threads[t]) && threads[t].pc == WaitPoll(timeout, 0) && timeout > 0
      modifies this
      ensures t < |threads| && Ready(t, threads[t])
      ensures if r == None then bursts == [] else threads[t].pc == Idle && threads[t].last == r
      ensures threads[t].depth == old(threads[t].depth) + if r == OsOK then 1 else 0
      ensures r == OsOK ==> old(threads[t].depth) == 0
      ensures r == None || r == OsOK || r == OsErrorTimeout
      ensures r == OsErrorTimeout ==> FirstPoll(timeout, polls)
      ensures r != OsErrorTimeout ==> forall k :: 1 <= k <= polls ==> Polling.AllTime(timeout, k) < timeout
    {
      var allTime: nat := 0;
      polls := 0;
      while bursts != []
        invariant Ready(t, old(threads[t]).(pc := WaitPoll(timeout, allTime)))
        invariant allTime == Polling.AllTime(timeout, polls)
        invariant forall k :: 1 <= k <= polls ==> Polling.AllTime(timeout, k) < timeout
        decreases |bursts|
      {
        var got := PollOnce(t, timeout, allTime);
        if got {
          return OsOK, polls;
        }
        allTime := Polling.Sum(timeout, polls, allTime);
        polls := polls + 1;
        if allTime >= timeout {
          return OsErrorTimeout, polls;
        }
      }
      return None, polls;
    }

    /** One turn of the polling loop up to its sum. */
    method PollOnce(t: nat, timeout: nat, ghost all: nat) returns (got: bool)
      requires t < |threads| && Ready(t, threads[t]) && threads[t].pc == WaitPoll(timeout, all) && bursts != []
      modifies this
      ensures got ==>
                && old(threads[t].depth) == 0
                && Ready(t, old(threads[t]).(pc := Idle, depth := old(threads[t].depth) + 1, last := OsOK))
      ensures !got ==>
                && |bursts| < |old(bursts)|
                && Ready(t, if AddTime(all, timeout) < timeout
                            then old(threads[t]).(pc := WaitPoll(timeout, AddTime(all, timeout)))
                            else old(threads[t]).(pc := Idle, last := OsErrorTimeout))
    {
      got := SwapCsr(t, true);
      if got {
        OwnAfterWait(t);
      }
    }

    /** osMutexRelease: one level up for a thread inside, refused to any other. */
    method OsMutexRelease(t: nat) returns (r: Result)
      requires t < |threads| && Ready(t, threads[t]) && threads[t].pc == Idle
      modifies this
      ensures t < |threads| && Ready(t, threads[t]) && threads[t].pc == Idle && threads[t].last == r
      ensures r == OsOK || r == OsErrorResource || r == OsErrorParameter
      ensures r == OsOK ==> old(threads[t].depth) > 0 && threads[t].depth == old(threads[t].depth) - 1
      ensures r == OsErrorResource ==> old(threads[t].depth) == 0
      ensures r != OsOK ==> threads[t].depth == old(threads[t].depth)
      ensures (!old(active) ==> r == OsErrorParameter) && (r == OsErrorParameter ==> !active)
    {
      Begin(t, Release(t));
      var isActive := ReadActive(t);
      if !isActive {
        return OsErrorParameter;
      }
      var mine := OwnerIsMe(t);
      if !mine {
        return OsErrorResource;
      }
      GiveBack(t);
      return OsOK;
    }

    /** !(mutex->owner == NULL || mutex->owner != osThreadGetId()), one read each. */
    method OwnerIsMe(t: nat) returns (mine: bool)
      requires t < |threads| && Ready(t, threads[t]) && threads[t].pc == RelNull
      modifies this
      ensures Ready(t, if mine then old(threads[t]).(pc := RelDecRead)
                       else old(threads[t]).(pc := Idle, last := OsErrorResource))
      ensures mine <==> old(threads[t].depth) > 0
    {
      var o := ReadOwner(t);
      if o == NOBODY {
        return false;
      }
      o := ReadOwner(t);
      return o == t;
    }

    /** count--, and at zero owner = NULL and then the CSR. */
    method GiveBack(t: nat)
      requires t < |threads| && Ready(t, threads[t]) && threads[t].pc == RelDecRead && threads[t].depth > 0
      modifies this
      ensures Ready(t, old(threads[t]).(pc := Idle, depth := old(threads[t].depth) - 1, last := OsOK))
    {
      var c := ReadCount(t);
      WriteCount(t, c - 1);
      var left := ReadCount(t);
      if left == 0 {
        WriteOwner(t, NOBODY);
        FreeCsr(t);
      }
    }
  }

  lemma SwapIs(s: State, t: nat, more: bool)
    requires t < |s.threads|
    requires Swaps(s.threads[t].pc)
    ensures var s' := Advance(s, t, more);
            |s'.threads| == |s.threads| && s'.threads[t] == AfterSwap(s.threads[t], s.mutex.free, more)
            && s'.mutex == s.mutex.(free := false)
  {
  }

  lemma OwnerReadIs(s: State, t: nat)
    requires t < |s.threads| && ReadsOwner(s.threads[t].pc)
    ensures Advance(s, t, true) == Put(s, t, AfterOwner(s.threads[t], t, s.mutex.owner, s.mutex.recursive))
    ensures AfterOwner(s.threads[t], t, s.mutex.owner, s.mutex.recursive).status == s.threads[t].status
  {
  }

  lemma DepthZero(s: State, t: nat)
    requires Inv(s) && t < |s.threads| && (s.threads[t].pc == AcqOwner || s.threads[t].pc == AcqSetOwner)
    requires s.threads[t].status == Live
    ensures s.threads[t].depth == 0
  {
    if s.flag == t { assert HolderOk(s, t); }
  }

  lemma OwnerMeans(s: State, t: nat)
    requires Inv(s) && t < |s.threads| && s.threads[t].status == Live
    requires ReadsOwner(s.threads[t].pc)
    ensures s.mutex.owner == t ==> s.threads[t].depth > 0
    ensures s.threads[t].pc != AcqOwner && s.mutex.owner != t ==> s.threads[t].depth == 0
    ensures s.threads[t].pc == AcqOwner ==> s.threads[t].depth == 0
  {
    if s.flag == t { assert HolderOk(s, t); } else { NotOwner(s, t); }
  }
}
