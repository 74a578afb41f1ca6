/** What the interleaved slot calls of SlotLocking do to starvation and leaks: who is fed after each
    finished call, given what the call happened to see, and the four races between two calls. */
module SlotRaces {
  import opened Registers
  import opened SlotTable
  import opened KernelSpec
  import opened KernelRuns
  import opened SlotLocking

  /** The call saw a soft thread other than tid alive. */
  ghost predicate OtherSeen(t: Table, seen: seq<bool>, tid: nat)
    requires |t.soft| == |seen| == HW_THREADS
  {
    exists k :: 0 <= k < HW_THREADS && k != tid && t.soft[k] && seen[k]
  }

  lemma SeenIsLive(t: Table, seen: seq<bool>, prio: int, tid: nat)
    requires |t.soft| == |seen| == HW_THREADS
    ensures AsOs(t, seen, prio).OtherLiveSoft(tid) <==> OtherSeen(t, seen, tid)
  {
    var os := AsOs(t, seen, prio);
    if OtherSeen(t, seen, tid) {
      var k :| 0 <= k < HW_THREADS && k != tid && t.soft[k] && seen[k];
      assert os.LiveSoft(k);
    }
  }

  /** Only slots of tid, SOFT slots and disabled ones have changed their number. */
  ghost predicate OthersKept(s: Slots, r: Slots, tid: nat) {
    forall c :: c != tid && c != SLOT_S && c != SLOT_D ==> Count(r, c) == Count(s, c)
  }

  // ------------------------------------------------- each call, on the table and on what it saw

  lemma SetNumDoes(t: Table, d: Done)
    requires |t.soft| == |d.seen| == HW_THREADS && d.call.Valid() && d.call.SetNum? && d.call.id < 8 && d.call.n == 0
    ensures var r := Atomic(t, d);
            && r.soft == t.soft && OthersKept(t.slots, r.slots, d.call.id)
            && Count(r.slots, d.call.id) == 0 && Count(r.slots, SLOT_S) == Count(t.slots, SLOT_S)
  {
    SlotNum(t.slots, d.call.id, 0);
  }

  lemma EndSoftDoes(t: Table, d: Done)
    requires |t.soft| == |d.seen| == HW_THREADS && d.call.Valid() && d.call.EndSoft?
    ensures var r := Atomic(t, d);
            && r.soft == t.soft && OthersKept(t.slots, r.slots, d.call.tid) && Count(r.slots, d.call.tid) == 0
            && Count(r.slots, SLOT_S) == if OtherSeen(t, d.seen, d.call.tid) then Count(t.slots, SLOT_S) else 0
  {
    var tid := d.call.tid;
    SeenIsLive(t, d.seen, d.prio, tid);
    SlotNum(t.slots, tid, 0);
    SlotNum(WithSlotNum(t.slots, tid, 0), SLOT_S, 0);
    SoftBitsOfAsOs(t, d.seen, d.prio, tid, TMODE_HARD);
  }

  lemma ToHardDoes(t: Table, d: Done)
    requires |t.soft| == |d.seen| == HW_THREADS && d.call.Valid() && d.call.ToHard?
    ensures var r := Atomic(t, d);
            var tid := d.call.tid;
            && r.soft == t.soft[tid := false] && OthersKept(t.slots, r.slots, tid)
            && (Count(r.slots, tid) > 0 <==> Count(t.slots, tid) > 0 || Count(t.slots, SLOT_D) >= 2)
            && Count(r.slots, SLOT_S) == if OtherSeen(t, d.seen, tid) then Count(t.slots, SLOT_S) else 0
  {
    var os, tid := AsOs(t, d.seen, d.prio), d.call.tid;
    SeenIsLive(t, d.seen, d.prio, tid);
    HardEffect(os, tid);
    SoftBitsOfAsOs(t, d.seen, d.prio, tid, TMODE_HARD);
  }

  lemma ToSoftDoes(t: Table, d: Done)
    requires |t.soft| == |d.seen| == HW_THREADS && d.call.Valid() && d.call.ToSoft?
    ensures var r := Atomic(t, d);
            var tid := d.call.tid;
            && r.soft == t.soft[tid := true] && OthersKept(t.slots, r.slots, tid) && Count(r.slots, tid) == 0
            && Count(r.slots, SLOT_S) ==
                 if !OtherSeen(t, d.seen, tid) && Count(t.slots, SLOT_S) == 0 && Count(t.slots, SLOT_D) >= 2
                 then 1 else Count(t.slots, SLOT_S)
  {
    var os, tid := AsOs(t, d.seen, d.prio), d.call.tid;
    SeenIsLive(t, d.seen, d.prio, tid);
    SoftEffect(os, tid);
    SoftBitsOfAsOs(t, d.seen, d.prio, tid, TMODE_SOFT);
  }

  lemma CreateDoes(t: Table, d: Done)
    requires |t.soft| == |d.seen| == HW_THREADS && d.call.Valid() && d.call.Create?
    requires d.prio == REALTIME || d.prio == NORMAL
    ensures var r := Atomic(t, d);
            var tid := d.call.tid;
            && r.soft == t.soft[tid := d.prio == NORMAL] && OthersKept(t.slots, r.slots, tid)
            && (d.prio == REALTIME ==>
                  && Count(r.slots, SLOT_S) == Count(t.slots, SLOT_S)
                  && (Count(r.slots, tid) > 0 <==> Count(t.slots, tid) > 0 || Count(t.slots, SLOT_D) >= 2))
            && (d.prio == NORMAL ==>
                  && Count(r.slots, tid) == Count(t.slots, tid)
                  && (Count(r.slots, SLOT_S) > 0 <==> Count(t.slots, SLOT_S) > 0 || Count(t.slots, SLOT_D) >= 2))
  {
    var tid := d.call.tid;
    SlotNum(t.slots, tid, 1);
    SlotNum(t.slots, SLOT_S, 1);
    SoftBitsOfAsOs(t, d.seen, d.prio, tid, if d.prio == REALTIME then TMODE_HA else TMODE_SA);
  }

  // ------------------------------------------------------------------------------ the leak

  /** Thread i, dead, is ended while j is between its func write and its creation's critical section, and
      j then turns out hard. SOFT slots stay without any live soft thread if and only if there were
      some, j was counted, its mode being the soft one it was born with, and nobody else was. */
  lemma CreationRaceLeaksExactly(t: Table, seen: seq<bool>, later: seq<bool>, i: nat, j: nat)
    requires |t.soft| == |seen| == |later| == HW_THREADS && i < HW_THREADS && j < HW_THREADS && i != j
    ensures var t2 := Atomic(Atomic(t, Done(EndSoft(i), seen, 0)), Done(Create(j), later, REALTIME));
            (Count(t2.slots, SLOT_S) > 0 && !OtherSeen(t2, seen, i)) <==>
              && Count(t.slots, SLOT_S) > 0 && t.soft[j] && seen[j]
              && forall k :: 0 <= k < HW_THREADS && k != i && k != j ==> !(t.soft[k] && seen[k])
  {
    var d1, d2 := Done(EndSoft(i), seen, 0), Done(Create(j), later, REALTIME);
    var t1 := Atomic(t, d1);
    EndSoftDoes(t, d1);
    CreateDoes(t1, d2);
    var t2 := Atomic(t1, d2);
    assert t2.soft == t.soft[j := false];
    if t.soft[j] && seen[j] { assert OtherSeen(t, seen, i); }
    if OtherSeen(t2, seen, i) {
      var k :| 0 <= k < HW_THREADS && k != i && t2.soft[k] && seen[k];
      assert k != j && t.soft[k];
    }
    if k :| 0 <= k < HW_THREADS && k != i && k != j && t.soft[k] && seen[k] {
      assert t2.soft[k];
    }
  }

  /** A promotion of i in the same gap counts in the same way. */
  lemma PromotionRaceLeaksExactly(t: Table, seen: seq<bool>, later: seq<bool>, i: nat, j: nat)
    requires |t.soft| == |seen| == |later| == HW_THREADS && i < HW_THREADS && j < HW_THREADS && i != j
    ensures var t2 := Atomic(Atomic(t, Done(ToHard(i), seen, 0)), Done(Create(j), later, REALTIME));
            (Count(t2.slots, SLOT_S) > 0 && !OtherSeen(t2, seen, i)) <==>
              && Count(t.slots, SLOT_S) > 0 && t.soft[j] && seen[j]
              && forall k :: 0 <= k < HW_THREADS && k != i && k != j ==> !(t.soft[k] && seen[k])
  {
    var d1, d2 := Done(ToHard(i), seen, 0), Done(Create(j), later, REALTIME);
    var t1 := Atomic(t, d1);
    ToHardDoes(t, d1);
    CreateDoes(t1, d2);
    var t2 := Atomic(t1, d2);
    assert t2.soft == t.soft[i := false][j := false];
    if t.soft[j] && seen[j] { assert OtherSeen(t, seen, i); }
    if OtherSeen(t2, seen, i) {
      var k :| 0 <= k < HW_THREADS && k != i && t2.soft[k] && seen[k];
      assert k != j && t.soft[k];
    }
    if k :| 0 <= k < HW_THREADS && k != i && k != j && t.soft[k] && seen[k] {
      assert t2.soft[k];
    }
  }

  /** No creation at all: a terminate has read that i is hard, and a demotion of i takes the lock first. What
      the terminate then does leaves SOFT slots with no other soft thread if and only if the demotion saw
      none and there were some or room for one. */
  lemma DemotionRaceLeaksExactly(t: Table, seen: seq<bool>, later: seq<bool>, i: nat)
    requires |t.soft| == |seen| == |later| == HW_THREADS && i < HW_THREADS
    ensures var t2 := Atomic(Atomic(t, Done(ToSoft(i), seen, 0)), Done(SetNum(i, 0), later, 0));
            (Count(t2.slots, SLOT_S) > 0 && !OtherSeen(t2, seen, i)) <==>
              !OtherSeen(t, seen, i) && (Count(t.slots, SLOT_S) > 0 || Count(t.slots, SLOT_D) >= 2)
  {
    var d1, d2 := Done(ToSoft(i), seen, 0), Done(SetNum(i, 0), later, 0);
    var t1 := Atomic(t, d1);
    ToSoftDoes(t, d1);
    SetNumDoes(t1, d2);
    var t2 := Atomic(t1, d2);
    assert t2.soft == t.soft[i := true];
    if k :| 0 <= k < HW_THREADS && k != i && t.soft[k] && seen[k] { assert t2.soft[k]; }
  }

  /** The same creation seen by a demotion: thread i turns soft and finds no SOFT slot, and counts j as the
      soft thread that would have one. It is left without one if and only if somebody was counted, or
      there were not two disabled slots. */
  lemma CreationRaceStarvesExactly(t: Table, seen: seq<bool>, later: seq<bool>, i: nat, j: nat)
    requires |t.soft| == |seen| == |later| == HW_THREADS && i < HW_THREADS && j < HW_THREADS && i != j
    ensures var t2 := Atomic(Atomic(t, Done(ToSoft(i), seen, 0)), Done(Create(j), later, REALTIME));
            && t2.soft[i] && Count(t2.slots, i) == 0
            && (Count(t2.slots, SLOT_S) == 0 <==>
                  Count(t.slots, SLOT_S) == 0 && (OtherSeen(t, seen, i) || Count(t.slots, SLOT_D) < 2))
  {
    var d1, d2 := Done(ToSoft(i), seen, 0), Done(Create(j), later, REALTIME);
    ToSoftDoes(t, d1);
    CreateDoes(Atomic(t, d1), d2);
  }

  // --------------------------------------------------------------- who is fed after a finished call

  /** A thread's life: its id not given out, its func written but its creation's critical section not
      over, created and running, ended. */
  datatype Life = Unborn | Half | Alive | Dead

  /** Every created live thread has what its mode needs. */
  ghost predicate Fed(t: Table, life: seq<Life>)
    requires |t.soft| == |life| == HW_THREADS
  {
    forall k :: 0 <= k < HW_THREADS && life[k] == Alive ==> Count(t.slots, if t.soft[k] then SLOT_S else k) > 0
  }

  predicate Surveys(c: SlotCall) { c.EndSoft? || c.ToHard? || c.ToSoft? }

  /** The finished call names and has seen what it should: a terminate names a dead thread; a survey saw
      everybody alive; a creation read a supported priority. */
  ghost predicate Sound(t: Table, d: Done, life: seq<Life>)
    requires |t.soft| == |d.seen| == |life| == HW_THREADS && d.call.Valid()
  {
    && (d.call.SetNum? ==> d.call.id < 8 && d.call.n == 0 && life[d.call.id] == Dead)
    && (d.call.EndSoft? ==> life[d.call.tid] == Dead)
    && (Surveys(d.call) ==> forall k :: 0 <= k < HW_THREADS && life[k] == Alive ==> d.seen[k])
    && (d.call.Create? ==> d.prio == REALTIME || d.prio == NORMAL)
  }

  /** It has to take a disabled slot. */
  ghost predicate Takes(t: Table, d: Done)
    requires |t.soft| == |d.seen| == HW_THREADS && d.call.Valid()
  {
    match d.call
    case ToHard(tid) => Count(t.slots, tid) == 0
    case ToSoft(tid) => Count(t.slots, SLOT_S) == 0 && !OtherSeen(t, d.seen, tid)
    case Create(tid) => Count(t.slots, if d.prio == REALTIME then tid else SLOT_S) == 0
    case _ => false
  }

  function Committed(life: seq<Life>, c: SlotCall): (r: seq<Life>)
    requires |life| == HW_THREADS && c.Valid()
    ensures |r| == HW_THREADS
  {
    if c.Create? && life[c.tid] == Half then life[c.tid := Alive] else life
  }

  /** It has to take one for a thread that is alive when it has finished. */
  ghost predicate Needs(t: Table, d: Done, life: seq<Life>)
    requires |t.soft| == |d.seen| == |life| == HW_THREADS && d.call.Valid()
  {
    Takes(t, d) && Committed(life, d.call)[d.call.tid] == Alive
  }

  /** It demotes a live thread and counts a soft thread although there is no SOFT slot. */
  ghost predicate Miscounts(t: Table, d: Done, life: seq<Life>)
    requires |t.soft| == |d.seen| == |life| == HW_THREADS && d.call.Valid()
  {
    d.call.ToSoft? && life[d.call.tid] == Alive && OtherSeen(t, d.seen, d.call.tid) && Count(t.slots, SLOT_S) == 0
  }

  lemma EndsFeed(t: Table, d: Done, life: seq<Life>)
    requires |t.soft| == |d.seen| == |life| == HW_THREADS && d.call.Valid() && (d.call.SetNum? || d.call.EndSoft?)
    requires Fed(t, life) && Sound(t, d, life)
    ensures Fed(Atomic(t, d), life)
  {
    var r := Atomic(t, d);
    if d.call.SetNum? { SetNumDoes(t, d); } else { EndSoftDoes(t, d); }
    forall k | 0 <= k < HW_THREADS && life[k] == Alive ensures Count(r.slots, if r.soft[k] then SLOT_S else k) > 0 {
      if d.call.EndSoft? && t.soft[k] { assert OtherSeen(t, d.seen, d.call.tid); }
    }
  }

  /** Whoever is not named is fed as before; so only the thread named decides. */
  lemma FedButNamed(t: Table, d: Done, r: Table, life: seq<Life>, life': seq<Life>, tid: nat)
    requires |t.soft| == |r.soft| == |d.seen| == |life| == |life'| == HW_THREADS && tid < HW_THREADS && Fed(t, life)
    requires OthersKept(t.slots, r.slots, tid)
    requires forall k :: 0 <= k < HW_THREADS && k != tid ==> r.soft[k] == t.soft[k] && life'[k] == life[k]
    requires forall k :: 0 <= k < HW_THREADS && k != tid && life[k] == Alive && t.soft[k] ==>
               Count(r.slots, SLOT_S) > 0
    ensures Fed(r, life') <==> life'[tid] != Alive || Count(r.slots, if r.soft[tid] then SLOT_S else tid) > 0
  {
  }

  lemma ToHardFeeds(t: Table, d: Done, life: seq<Life>)
    requires |t.soft| == |d.seen| == |life| == HW_THREADS && d.call.Valid() && d.call.ToHard?
    requires Fed(t, life) && Sound(t, d, life)
    ensures Fed(Atomic(t, d), life) <==> !(Needs(t, d, life) && Count(t.slots, SLOT_D) < 2)
  {
    var r := Atomic(t, d);
    ToHardDoes(t, d);
    forall k | 0 <= k < HW_THREADS && k != d.call.tid && life[k] == Alive && t.soft[k]
      ensures Count(r.slots, SLOT_S) > 0
    {
      assert OtherSeen(t, d.seen, d.call.tid);
    }
    FedButNamed(t, d, r, life, life, d.call.tid);
  }

  lemma ToSoftFeeds(t: Table, d: Done, life: seq<Life>)
    requires |t.soft| == |d.seen| == |life| == HW_THREADS && d.call.Valid() && d.call.ToSoft?
    requires Fed(t, life) && Sound(t, d, life)
    ensures Fed(Atomic(t, d), life) <==>
              !(Needs(t, d, life) && Count(t.slots, SLOT_D) < 2) && !Miscounts(t, d, life)
  {
    ToSoftDoes(t, d);
    FedButNamed(t, d, Atomic(t, d), life, life, d.call.tid);
  }

  lemma CreateFeeds(t: Table, d: Done, life: seq<Life>)
    requires |t.soft| == |d.seen| == |life| == HW_THREADS && d.call.Valid() && d.call.Create?
    requires Fed(t, life) && Sound(t, d, life)
    ensures Fed(Atomic(t, d), Committed(life, d.call)) <==> !(Needs(t, d, life) && Count(t.slots, SLOT_D) < 2)
  {
    CreateDoes(t, d);
    FedButNamed(t, d, Atomic(t, d), life, Committed(life, d.call), d.call.tid);
  }

  /** Exactly when a finished call starves a live thread, with whatever it saw: when it has to take a slot
      for one and finds fewer than two disabled, or demotes one and has miscounted. */
  lemma CallFeedsExactly(t: Table, d: Done, life: seq<Life>)
    requires |t.soft| == |d.seen| == |life| == HW_THREADS && d.call.Valid()
    requires Fed(t, life) && Sound(t, d, life)
    ensures Fed(Atomic(t, d), Committed(life, d.call)) <==>
              !(Needs(t, d, life) && Count(t.slots, SLOT_D) < 2) && !Miscounts(t, d, life)
  {
    match d.call
    case SetNum(_, _) => EndsFeed(t, d, life);
    case EndSoft(_) => EndsFeed(t, d, life);
    case ToHard(_) => ToHardFeeds(t, d, life);
    case ToSoft(_) => ToSoftFeeds(t, d, life);
    case Create(_) => CreateFeeds(t, d, life);
  }
}
