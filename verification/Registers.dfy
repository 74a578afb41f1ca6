/** 32-bit machine words as their bits, least significant first, with the operators
    that the register macros use. */
module Words {
  type Word = w: seq<bool> | |w| == 32 witness seq(32, _ => false)

  function And(a: Word, b: Word): Word { seq(32, i requires 0 <= i < 32 => a[i] && b[i]) }

  function Or(a: Word, b: Word): Word { seq(32, i requires 0 <= i < 32 => a[i] || b[i]) }

  function Not(a: Word): Word { seq(32, i requires 0 <= i < 32 => !a[i]) }

  function Shl(a: Word, k: nat): Word { seq(32, i requires 0 <= i < 32 => k <= i && a[i - k]) }

  function Shr(a: Word, k: nat): Word { seq(32, i requires 0 <= i < 32 => i + k < 32 && a[i + k]) }

  function Bit(n: nat, i: nat): bool
    requires i < 4
  {
    (if i == 0 then n else if i == 1 then n / 2 else if i == 2 then n / 4 else n / 8) % 2 == 1
  }

  /** The word holding a value below 16. */
  function OfNat(n: nat): Word
    requires n < 16
  {
    seq(32, i requires 0 <= i < 32 => i < 4 && Bit(n, i))
  }

  /** The value of a word's low four bits. */
  function Low4(w: Word): (n: nat)
    ensures n < 16
  {
    (if w[0] then 1 else 0) + (if w[1] then 2 else 0) + (if w[2] then 4 else 0) + (if w[3] then 8 else 0)
  }

  lemma Low4OfNat(n: nat, w: Word)
    requires n < 16
    requires forall i :: 0 <= i < 4 ==> w[i] == Bit(n, i)
    ensures Low4(w) == n
  {
    assert w[0] == Bit(n, 0) && w[1] == Bit(n, 1) && w[2] == Bit(n, 2) && w[3] == Bit(n, 3);
  }

  lemma BitOfLow4(w: Word, i: nat)
    requires i < 4
    ensures Bit(Low4(w), i) == w[i]
  {
  }
}

/** The slots register (CSR badvaddr) and the thread-mode register (CSR ptbr): the packing
    macros of flexpret_threads.h and the single-bit CSR writes of set_thread_mode. */
module Registers {
  import opened Words

  const HW_THREADS := 8
  const SLOT_S := 14
  const SLOT_D := 15

  const TMODE_HA := 0
  const TMODE_HZ := 1
  const TMODE_SA := 2
  const TMODE_SZ := 3
  const TMODE_HARD := 4
  const TMODE_SOFT := 5
  const TMODE_ACTIVE := 6
  const TMODE_ZOMBIE := 7

  /** Eight 4-bit slot codes. */
  type Slots = s: seq<nat> | |s| == 8 && forall i :: 0 <= i < 8 ==> s[i] < 16 witness seq(8, _ => 15)

  /** Eight 2-bit mode codes. */
  type Modes = s: seq<nat> | |s| == 8 && forall i :: 0 <= i < 8 ==> s[i] < 4 witness seq(8, _ => 0)

  /** One field of a packed word: ((n & m) << k). */
  function Field(n: nat, m: nat, k: nat): Word
    requires n < 16 && m < 16
  {
    Shl(And(OfNat(n), OfNat(m)), k)
  }

  /** The fields of s or-ed together, the first one lowest: the body of set_slots_0 (4-bit fields)
      and of set_tmodes_8 (2-bit fields). */
  function Pack(s: seq<nat>, wide: bool): Word
    requires |s| <= 8 && forall i :: 0 <= i < |s| ==> s[i] < 16
  {
    if s == [] then OfNat(0)
    else
      var i := |s| - 1;
      Or(if wide then Field(s[i], 0xF, 4 * i) else Field(s[i], 0x3, 2 * i), Pack(s[..i], wide))
  }

  function SetSlots(s: Slots): Word { Pack(s, true) }

  function GetSlots(r: Word): Slots {
    seq(8, i requires 0 <= i < 8 => Low4(And(Shr(r, 4 * i), OfNat(0xF))))
  }

  function SetTmodes(t: Modes): Word { Pack(t, false) }

  function GetTmodes(r: Word): (t: Modes)
    ensures forall i {:trigger t[i]} :: 0 <= i < 8 ==> t[i] == Code(r[2 * i + 1], r[2 * i])
  {
    assert forall i {:trigger Shr(r, 2 * i)} :: 0 <= i < 8 ==>
      Low4(And(Shr(r, 2 * i), OfNat(0x3))) == Code(r[2 * i + 1], r[2 * i]);
    seq(8, i requires 0 <= i < 8 => Low4(And(Shr(r, 2 * i), OfNat(0x3))))
  }

  /** The 2-bit mode code of a soft bit and a zombie bit. */
  function Code(soft: bool, zombie: bool): (m: nat) {
    (if soft then 2 else 0) + (if zombie then 1 else 0)
  }

  // ---------- packing and unpacking ----------

  lemma CodeOfBits(n: nat)
    requires n < 4
    ensures Code(Bit(n, 1), Bit(n, 0)) == n
  {
  }

  lemma FieldBit(n: nat, k: nat, j: nat)
    requires n < 16 && j < 32
    ensures Field(n, 0xF, k)[j] <==> k <= j < k + 4 && Bit(n, j - k)
    ensures n < 4 ==> (Field(n, 0x3, k)[j] <==> k <= j < k + 2 && Bit(n, j - k))
  {
  }

  lemma {:induction false} SetSlotsBit(s: seq<nat>, i: nat, j: nat)
    requires |s| <= 8 && 4 * i <= j < 4 * i + 4 && j < 32
    requires forall i :: 0 <= i < |s| ==> s[i] < 16
    ensures Pack(s, true)[j] <==> i < |s| && Bit(s[i], j - 4 * i)
  {
    if s != [] {
      var n := |s| - 1;
      FieldBit(s[n], 4 * n, j);
      SetSlotsBit(s[..n], i, j);
    }
  }

  lemma {:induction false} SetTmodesBit(t: seq<nat>, i: nat, j: nat)
    requires |t| <= 8 && 2 * i <= j < 2 * i + 2 && j < 32
    requires forall i :: 0 <= i < |t| ==> t[i] < 4
    ensures Pack(t, false)[j] <==> i < |t| && Bit(t[i], j - 2 * i)
  {
    if t != [] {
      var n := |t| - 1;
      FieldBit(t[n], 2 * n, j);
      SetTmodesBit(t[..n], i, j);
    }
  }

  lemma GetSlotBit(r: Word, i: nat, b: nat)
    requires i < 8 && b < 4
    ensures And(Shr(r, 4 * i), OfNat(0xF))[b] == r[4 * i + b] == Bit(GetSlots(r)[i], b)
  {
    BitOfLow4(And(Shr(r, 4 * i), OfNat(0xF)), b);
  }

  /** get_slots undoes set_slots: the register holds any array of eight 4-bit codes without loss. */
  lemma GetSetSlots(s: Slots)
    ensures GetSlots(SetSlots(s)) == s
  {
    var r := SetSlots(s);
    forall i | 0 <= i < 8 ensures GetSlots(r)[i] == s[i] {
      var w := And(Shr(r, 4 * i), OfNat(0xF));
      forall b | 0 <= b < 4 ensures w[b] == Bit(s[i], b) { SetSlotsBit(s, i, 4 * i + b); GetSlotBit(r, i, b); }
      Low4OfNat(s[i], w);
    }
  }

  /** set_slots undoes get_slots: no other register value has the same slots. */
  lemma SetGetSlots(r: Word)
    ensures SetSlots(GetSlots(r)) == r
  {
    forall j | 0 <= j < 32 ensures SetSlots(GetSlots(r))[j] == r[j] {
      SetSlotsBit(GetSlots(r), j / 4, j);
      GetSlotBit(r, j / 4, j % 4);
    }
  }

  /** get_tmodes undoes set_tmodes, and set_tmodes clears the register's upper half. */
  lemma GetSetTmodes(t: Modes)
    ensures GetTmodes(SetTmodes(t)) == t
    ensures forall j :: 16 <= j < 32 ==> !SetTmodes(t)[j]
  {
    var r := SetTmodes(t);
    forall i | 0 <= i < 8 ensures r[2 * i + 1] == Bit(t[i], 1) && r[2 * i] == Bit(t[i], 0) {
      SetTmodesBit(t, i, 2 * i);
      SetTmodesBit(t, i, 2 * i + 1);
    }
    forall i | 0 <= i < 8 ensures GetTmodes(r)[i] == t[i] { CodeOfBits(t[i]); }
    forall j | 16 <= j < 32 ensures !r[j] { SetTmodesBit(t, j / 2, j); }
  }

  // ---------- set_thread_mode ----------

  /** CSRRS: set the bits of mask. */
  function SetCsr(r: Word, mask: Word): Word { Or(r, mask) }

  /** CSRRC: clear the bits of mask. */
  function ClearCsr(r: Word, mask: Word): Word { And(r, Not(mask)) }

  function HBit(tid: nat): Word
    requires tid < 8
  {
    Shl(OfNat(1), tid * 2 + 1)
  }

  function LBit(tid: nat): Word
    requires tid < 8
  {
    Shl(OfNat(1), tid * 2)
  }

  function SetThreadMode(r: Word, tid: nat, tmode: int): Word
    requires tid < 8
  {
    if tmode == TMODE_HARD then ClearCsr(r, HBit(tid))
    else if tmode == TMODE_SOFT then SetCsr(r, HBit(tid))
    else if tmode == TMODE_ACTIVE then ClearCsr(r, LBit(tid))
    else if tmode == TMODE_ZOMBIE then SetCsr(r, LBit(tid))
    else if tmode == TMODE_SZ then SetCsr(SetCsr(r, HBit(tid)), LBit(tid))
    else if tmode == TMODE_SA then ClearCsr(SetCsr(r, HBit(tid)), LBit(tid))
    else if tmode == TMODE_HZ then SetCsr(ClearCsr(r, HBit(tid)), LBit(tid))
    else if tmode == TMODE_HA then ClearCsr(ClearCsr(r, HBit(tid)), LBit(tid))
    else r
  }

  predicate Soft(m: nat) { m == TMODE_SA || m == TMODE_SZ }

  predicate Zombie(m: nat) { m == TMODE_HZ || m == TMODE_SZ }

  lemma MaskBit(tid: nat, j: nat)
    requires tid < 8 && j < 32
    ensures HBit(tid)[j] <==> j == 2 * tid + 1
    ensures LBit(tid)[j] <==> j == 2 * tid
  {
  }

  lemma CsrBit(r: Word, tid: nat, j: nat)
    requires tid < 8 && j < 32
    ensures SetCsr(r, HBit(tid))[j] <==> j == 2 * tid + 1 || r[j]
    ensures ClearCsr(r, HBit(tid))[j] <==> j != 2 * tid + 1 && r[j]
    ensures SetCsr(r, LBit(tid))[j] <==> j == 2 * tid || r[j]
    ensures ClearCsr(r, LBit(tid))[j] <==> j != 2 * tid && r[j]
  {
    MaskBit(tid, j);
  }

  /** Every bit but the thread's own two survives any set_thread_mode. */
  lemma OtherBitsKept(r: Word, tid: nat, tmode: int, j: nat)
    requires tid < 8 && j < 32 && j != 2 * tid && j != 2 * tid + 1
    ensures SetThreadMode(r, tid, tmode)[j] == r[j]
  {
    CsrBit(r, tid, j);
    CsrBit(SetCsr(r, HBit(tid)), tid, j);
    CsrBit(ClearCsr(r, HBit(tid)), tid, j);
  }

  /** A full mode code is stored as it is; HARD and SOFT keep the zombie bit, ACTIVE and ZOMBIE
      keep the soft bit; any other code changes nothing. No other thread's mode changes. */
  lemma SetThreadModeMeaning(r: Word, tid: nat, tmode: int)
    requires tid < 8
    ensures var t := GetTmodes(r); var t' := GetTmodes(SetThreadMode(r, tid, tmode));
            && (forall i :: 0 <= i < 8 && i != tid ==> t'[i] == t[i])
            && (0 <= tmode < 4 ==> t'[tid] == tmode)
            && (tmode == TMODE_HARD ==> !Soft(t'[tid]) && Zombie(t'[tid]) == Zombie(t[tid]))
            && (tmode == TMODE_SOFT ==> Soft(t'[tid]) && Zombie(t'[tid]) == Zombie(t[tid]))
            && (tmode == TMODE_ACTIVE ==> !Zombie(t'[tid]) && Soft(t'[tid]) == Soft(t[tid]))
            && (tmode == TMODE_ZOMBIE ==> Zombie(t'[tid]) && Soft(t'[tid]) == Soft(t[tid]))
            && (tmode < 0 || tmode > 7 ==> t'[tid] == t[tid])
  {
    var r' := SetThreadMode(r, tid, tmode);
    forall i | 0 <= i < 8 && i != tid ensures GetTmodes(r')[i] == GetTmodes(r)[i] {
      OtherBitsKept(r, tid, tmode, 2 * i);
      OtherBitsKept(r, tid, tmode, 2 * i + 1);
    }
    forall j | 2 * tid <= j <= 2 * tid + 1
      ensures SetThreadMode(r, tid, tmode)[j] ==
        if j == 2 * tid + 1
        then (tmode == TMODE_SOFT || tmode == TMODE_SZ || tmode == TMODE_SA
              || (r[j] && (tmode < 0 || tmode > 7 || tmode == TMODE_ACTIVE || tmode == TMODE_ZOMBIE)))
        else (tmode == TMODE_ZOMBIE || tmode == TMODE_SZ || tmode == TMODE_HZ
              || (r[j] && (tmode < 0 || tmode > 7 || tmode == TMODE_HARD || tmode == TMODE_SOFT)))
    {
      CsrBit(r, tid, j);
      CsrBit(SetCsr(r, HBit(tid)), tid, j);
      CsrBit(ClearCsr(r, HBit(tid)), tid, j);
    }
  }

  /** Mode changes of different threads commute, so unlocked ones are never lost. */
  lemma SetThreadModeCommutes(r: Word, t1: nat, m1: int, t2: nat, m2: int)
    requires t1 < 8 && t2 < 8 && t1 != t2
    ensures SetThreadMode(SetThreadMode(r, t1, m1), t2, m2) == SetThreadMode(SetThreadMode(r, t2, m2), t1, m1)
  {
    var a, b := SetThreadMode(r, t1, m1), SetThreadMode(r, t2, m2);
    forall j | 0 <= j < 32 ensures SetThreadMode(a, t2, m2)[j] == SetThreadMode(b, t1, m1)[j] {
      if j != 2 * t1 && j != 2 * t1 + 1 { OtherBitsKept(b, t1, m1, j); OtherBitsKept(r, t1, m1, j); }
      if j != 2 * t2 && j != 2 * t2 + 1 { OtherBitsKept(a, t2, m2, j); OtherBitsKept(r, t2, m2, j); }
      OwnBitsLocal(a, r, t2, m2, j);
      OwnBitsLocal(b, r, t1, m1, j);
    }
  }

  /** A bit after set_thread_mode depends on that bit before and on nothing else. */
  lemma OwnBitsLocal(r: Word, s: Word, tid: nat, tmode: int, j: nat)
    requires tid < 8 && j < 32
    ensures r[j] == s[j] ==> SetThreadMode(r, tid, tmode)[j] == SetThreadMode(s, tid, tmode)[j]
  {
    CsrBit(r, tid, j); CsrBit(SetCsr(r, HBit(tid)), tid, j); CsrBit(ClearCsr(r, HBit(tid)), tid, j);
    CsrBit(s, tid, j); CsrBit(SetCsr(s, HBit(tid)), tid, j); CsrBit(ClearCsr(s, HBit(tid)), tid, j);
  }

  // ---------- osSchedulerGetFreq ----------

  /** The three counts packed into one result. */
  function PackFreq(threadCount: nat, softCount: nat, activeCount: nat): Word
    requires threadCount < 16 && softCount < 16 && activeCount < 16
  {
    Or(Field(threadCount, 0xF, 8), Or(Field(softCount, 0xF, 4), And(OfNat(activeCount), OfNat(0xF))))
  }

  function ThreadFreq(r: Word): nat { Low4(And(Shr(r, 8), OfNat(0xF))) }

  function SoftSlotCount(r: Word): nat { Low4(And(Shr(r, 4), OfNat(0xF))) }

  function AllSlotCount(r: Word): nat { Low4(And(Shr(r, 0), OfNat(0xF))) }

  /** The three counts never overlap in the packed result. */
  lemma UnpackFreq(threadCount: nat, softCount: nat, activeCount: nat)
    requires threadCount < 16 && softCount < 16 && activeCount < 16
    ensures var r := PackFreq(threadCount, softCount, activeCount);
            ThreadFreq(r) == threadCount && SoftSlotCount(r) == softCount && AllSlotCount(r) == activeCount
  {
    var r := PackFreq(threadCount, softCount, activeCount);
    forall b | 0 <= b < 4
      ensures And(Shr(r, 8), OfNat(0xF))[b] == Bit(threadCount, b)
      ensures And(Shr(r, 4), OfNat(0xF))[b] == Bit(softCount, b)
      ensures And(Shr(r, 0), OfNat(0xF))[b] == Bit(activeCount, b)
    {
      FieldBit(threadCount, 8, b + 8); FieldBit(softCount, 4, b + 8);
      FieldBit(threadCount, 8, b + 4); FieldBit(softCount, 4, b + 4);
      FieldBit(threadCount, 8, b); FieldBit(softCount, 4, b);
    }
    Low4OfNat(threadCount, And(Shr(r, 8), OfNat(0xF)));
    Low4OfNat(softCount, And(Shr(r, 4), OfNat(0xF)));
    Low4OfNat(activeCount, And(Shr(r, 0), OfNat(0xF)));
  }
}
