/** Words sent bit by bit on output pins against the 32-bit clock: duty_comm and sync_comm. */
module BitBang {
  import opened Numbers

  const PERIOD: nat := 1200
  const HALF: nat := PERIOD / 2
  const HIGH1: nat := 700
  const HIGH0: nat := 350

  /** A write to the output port: when, which pin (by its mask) and its level. */
  datatype Edge = Edge(at: nat, pin: nat, high: bool)

  // ------------------------------------------------------------------------------- words as bits

  function Shift(w: nat, k: nat): nat {
    if k == 0 then w else Shift(w / 2, k - 1)
  }

  lemma {:induction false} ShiftMore(w: nat, k: nat)
    ensures Shift(w, k + 1) == Shift(w, k) / 2
  {
    if k > 0 { ShiftMore(w / 2, k - 1); }
  }

  /** Bit k of the message, every word least significant bit first. */
  predicate BitAt(data: seq<Uint32>, k: nat)
    requires k < 32 * |data|
  {
    Shift(data[k / 32], k % 32) % 2 == 1
  }

  function Pow2(n: nat): nat {
    if n == 0 then 1 else 2 * Pow2(n - 1)
  }

  function FromBits(b: seq<bool>): nat {
    if b == [] then 0 else (if b[0] then 1 else 0) + 2 * FromBits(b[1..])
  }

  /** A receiver packs bits into words, first bit lowest. */
  function Pack(b: seq<bool>): seq<nat> {
    if |b| < 32 then [] else [FromBits(b[..32])] + Pack(b[32..])
  }

  lemma {:induction false} FromBitsIs(w: nat, b: seq<bool>)
    requires w < Pow2(|b|) && forall k :: 0 <= k < |b| ==> (b[k] <==> Shift(w, k) % 2 == 1)
    ensures FromBits(b) == w
  {
    if b != [] {
      assert b[0] <==> Shift(w, 0) % 2 == 1;
      forall k | 0 <= k < |b[1..]| ensures b[1..][k] <==> Shift(w / 2, k) % 2 == 1 {
        assert b[k + 1] <==> Shift(w, k + 1) % 2 == 1;
      }
      FromBitsIs(w / 2, b[1..]);
    }
  }

  lemma Pow32()
    ensures Pow2(32) == UINT32
  {
    assert Pow2(8) == 256;
    assert Pow2(16) == 65536;
    assert Pow2(24) == 16777216;
  }

  /** Packing the bits of a message gives the message. */
  lemma {:induction false} PackIs(data: seq<Uint32>, b: seq<bool>)
    requires |b| == 32 * |data| && forall k :: 0 <= k < |b| ==> (b[k] <==> BitAt(data, k))
    ensures Pack(b) == data
  {
    if data != [] {
      Pow32();
      assert |b[..32]| == 32;
      forall k | 0 <= k < 32 ensures b[..32][k] <==> Shift(data[0], k) % 2 == 1 {
        assert b[k] <==> BitAt(data, k);
      }
      FromBitsIs(data[0], b[..32]);
      forall k | 0 <= k < |b[32..]| ensures b[32..][k] <==> BitAt(data[1..], k) {
        assert b[k + 32] <==> BitAt(data, k + 32);
        assert (k + 32) / 32 == k / 32 + 1 && (k + 32) % 32 == k % 32;
      }
      PackIs(data[1..], b[32..]);
    }
  }

  // --------------------------------------------------------------------------- pulse-width coding

  /** The compare value for the start of bit k's pulse. */
  function RiseAt(start: nat, k: nat): nat {
    (start + (k + 1) * PERIOD) % UINT32
  }

  function Width(bit: bool): nat {
    if bit then HIGH1 else HIGH0
  }

  /** Bit k's pulse. */
  ghost predicate DutyBit(data: seq<Uint32>, start: nat, late: nat -> nat, trace: seq<Edge>, k: nat)
    requires k < 32 * |data| && 2 * k + 1 < |trace|
  {
    && trace[2 * k] == Edge(RiseAt(start, k) + late(2 * k), 1, true)
    && trace[2 * k + 1] == Edge((RiseAt(start, k) + Width(BitAt(data, k))) % UINT32 + late(2 * k + 1), 1, false)
  }

  /** The first n bits are on the trace, each write late by what the caller's clock says. */
  ghost predicate DutyTrace(data: seq<Uint32>, start: nat, late: nat -> nat, trace: seq<Edge>, n: nat)
    requires n <= 32 * |data|
  {
    |trace| == 2 * n && forall k: nat :: k < n ==> DutyBit(data, start, late, trace, k)
  }

  lemma DutyMore(data: seq<Uint32>, start: nat, late: nat -> nat, sent: seq<Edge>, trace: seq<Edge>, k: nat)
    requires k < 32 * |data| && DutyTrace(data, start, late, sent, k)
    requires trace == sent + [Edge(RiseAt(start, k) + late(2 * k), 1, true)]
                           + [Edge((RiseAt(start, k) + Width(BitAt(data, k))) % UINT32 + late(2 * k + 1), 1, false)]
    ensures DutyTrace(data, start, late, trace, k + 1)
  {
    forall m: nat | m < k ensures DutyBit(data, start, late, trace, m) {
      assert DutyBit(data, start, late, sent, m);
    }
  }

  /** duty_comm: now is what get_time gave, late how far behind its compare value the n-th wait ends. */
  method DutyComm(data: seq<Uint32>, now: Uint32, late: nat -> nat) returns (trace: seq<Edge>)
    ensures DutyTrace(data, (now + 1000) % UINT32, late, trace, 32 * |data|)
  {
    var start := (now + 1000) % UINT32;
    var time := start;
    trace := [];
    for i := 0 to |data|
      invariant time == (start + 32 * i * PERIOD) % UINT32
      invariant DutyTrace(data, start, late, trace, 32 * i)
    {
      var current: nat := data[i];
      for j := 0 to 32
        invariant time == (start + (32 * i + j) * PERIOD) % UINT32
        invariant current == Shift(data[i], j)
        invariant DutyTrace(data, start, late, trace, 32 * i + j)
      {
        ghost var k := 32 * i + j;
        assert k / 32 == i && k % 32 == j;
        time := (time + PERIOD) % UINT32;
        NextTime(start, k);
        ghost var sent := trace;
        trace := trace + [Edge(time + late(|trace|), 1, true)];
        if current % 2 == 1 {
          trace := trace + [Edge((time + HIGH1) % UINT32 + late(|trace|), 1, false)];
        } else {
          trace := trace + [Edge((time + HIGH0) % UINT32 + late(|trace|), 1, false)];
        }
        DutyMore(data, start, late, sent, trace, k);
        ShiftMore(data[i], j);
        current := current / 2;
      }
    }
  }

  lemma NextTime(start: nat, k: nat)
    ensures ((start + k * PERIOD) % UINT32 + PERIOD) % UINT32 == RiseAt(start, k)
  {
  }

  /** A receiver measures each pulse and compares it with the mean of the two widths. */
  function Measure(trace: seq<Edge>): seq<bool> {
    if |trace| < 2 then [] else [2 * (trace[1].at - trace[0].at) > HIGH0 + HIGH1] + Measure(trace[2..])
  }

  lemma {:induction false} MeasureAt(trace: seq<Edge>, k: nat)
    requires 2 * k + 1 < |trace|
    ensures |Measure(trace)| == |trace| / 2
    ensures Measure(trace)[k] <==> 2 * (trace[2 * k + 1].at - trace[2 * k].at) > HIGH0 + HIGH1
  {
    if |trace| >= 4 {
      MeasureAt(trace[2..], if k == 0 then 0 else k - 1);
    }
  }

  /** The whole transmission ends before the clock wraps. */
  predicate FitsClock(now: Uint32, bits: nat, tail: nat) {
    now + 1000 + bits * PERIOD + tail < UINT32
  }

  /** Bit k's pulse starts in its own period and ends before the next one starts. */
  lemma PulsesDisjoint(data: seq<Uint32>, now: Uint32, late: nat -> nat, trace: seq<Edge>, k: nat)
    requires DutyTrace(data, (now + 1000) % UINT32, late, trace, 32 * |data|) && FitsClock(now, 32 * |data|, HIGH1)
    requires (forall n: nat :: n < 64 * |data| ==> late(n) < 175) && k < 32 * |data|
    ensures trace[2 * k].high && !trace[2 * k + 1].high
    ensures 0 <= trace[2 * k].at - (now + 1000 + (k + 1) * 1200) < 175
    ensures -175 < trace[2 * k + 1].at - trace[2 * k].at - (if BitAt(data, k) then 700 else 350) < 175
    ensures k + 1 < 32 * |data| ==> trace[2 * k + 1].at < trace[2 * (k + 1)].at
  {
    NoWrap(now, |data|, k);
    assert DutyBit(data, (now + 1000) % UINT32, late, trace, k);
    if k + 1 < 32 * |data| {
      NoWrap(now, |data|, k + 1);
      assert DutyBit(data, (now + 1000) % UINT32, late, trace, k + 1);
    }
  }

  lemma NoWrap(now: Uint32, words: nat, k: nat)
    requires k < 32 * words && FitsClock(now, 32 * words, HIGH1)
    ensures RiseAt((now + 1000) % UINT32, k) == now + 1000 + (k + 1) * PERIOD
    ensures RiseAt((now + 1000) % UINT32, k) + HIGH1 < UINT32
  {
    assert (k + 1) * PERIOD <= 32 * words * PERIOD;
  }

  /** Whatever is sent is received, provided no wait ends 175 ns late and the clock does not wrap. */
  lemma DutyReceived(data: seq<Uint32>, now: Uint32, late: nat -> nat, trace: seq<Edge>)
    requires DutyTrace(data, (now + 1000) % UINT32, late, trace, 32 * |data|) && FitsClock(now, 32 * |data|, HIGH1)
    requires forall n: nat :: n < 64 * |data| ==> late(n) < 175
    ensures Pack(Measure(trace)) == data
  {
    if data != [] {
      MeasureAt(trace, 0);
      forall k | 0 <= k < 32 * |data| ensures Measure(trace)[k] <==> BitAt(data, k) {
        MeasureAt(trace, k);
        PulsesDisjoint(data, now, late, trace, k);
      }
      PackIs(data, Measure(trace));
    }
  }

  // --------------------------------------------------------------------------------- clock and data

  /** The clock after m half periods. */
  function Halves(start: nat, m: nat): nat {
    (start + m * HALF) % UINT32
  }

  /** The compare value for clock edge m, rising when m is even. */
  function ClockAt(start: nat, m: nat): nat {
    Halves(start, m + 1)
  }

  /** Bit k's three writes. */
  ghost predicate SyncBit(data: seq<Uint32>, start: nat, late: nat -> nat, trace: seq<Edge>, k: nat)
    requires k < 32 * |data| && 3 * k + 2 < |trace|
  {
    && trace[3 * k] == Edge(ClockAt(start, 2 * k) + late(2 * k), 1, true)
    && trace[3 * k + 1] == Edge(ClockAt(start, 2 * k) + late(2 * k), 2, BitAt(data, k))
    && trace[3 * k + 2] == Edge(ClockAt(start, 2 * k + 1) + late(2 * k + 1), 1, false)
  }

  ghost predicate SyncTrace(data: seq<Uint32>, start: nat, late: nat -> nat, trace: seq<Edge>, n: nat)
    requires n <= 32 * |data|
  {
    |trace| == 3 * n && forall k: nat :: k < n ==> SyncBit(data, start, late, trace, k)
  }

  lemma NextHalf(start: nat, m: nat)
    ensures (Halves(start, m) + HALF) % UINT32 == ClockAt(start, m)
  {
    AddPast(start + m * HALF, HALF);
    assert start + m * HALF + HALF == start + (m + 1) * HALF;
  }

  lemma AddPast(t: nat, d: nat)
    ensures (t % UINT32 + d) % UINT32 == (t + d) % UINT32
  {
    assert t + d == t / UINT32 * UINT32 + (t % UINT32 + d);
  }

  lemma SyncMore(data: seq<Uint32>, start: nat, late: nat -> nat, sent: seq<Edge>, trace: seq<Edge>, k: nat)
    requires k < 32 * |data| && SyncTrace(data, start, late, sent, k)
    requires trace == sent + [Edge(ClockAt(start, 2 * k) + late(2 * k), 1, true),
                              Edge(ClockAt(start, 2 * k) + late(2 * k), 2, BitAt(data, k)),
                              Edge(ClockAt(start, 2 * k + 1) + late(2 * k + 1), 1, false)]
    ensures SyncTrace(data, start, late, trace, k + 1)
  {
    forall m: nat | m < k ensures SyncBit(data, start, late, trace, m) {
      assert SyncBit(data, start, late, sent, m);
    }
  }

  /** sync_comm: the clock on one pin, the bit on the other right after each rising clock. */
  method SyncComm(data: seq<Uint32>, now: Uint32, late: nat -> nat) returns (trace: seq<Edge>)
    ensures SyncTrace(data, (now + 1000) % UINT32, late, trace, 32 * |data|)
  {
    var start := (now + 1000) % UINT32;
    var time := start;
    trace := [];
    for i := 0 to |data|
      invariant time == Halves(start, 2 * (32 * i))
      invariant SyncTrace(data, start, late, trace, 32 * i)
    {
      var current: nat := data[i];
      for j := 0 to 32
        invariant time == Halves(start, 2 * (32 * i + j))
        invariant current == Shift(data[i], j)
        invariant SyncTrace(data, start, late, trace, 32 * i + j)
      {
        ghost var k := 32 * i + j;
        assert k / 32 == i && k % 32 == j;
        var edges;
        NextHalf(start, 2 * k);
        NextHalf(start, 2 * k + 1);
        edges, time := SendBit(current, time, late(2 * (32 * i + j)), late(2 * (32 * i + j) + 1));
        SyncMore(data, start, late, trace, trace + edges, k);
        trace := trace + edges;
        ShiftMore(data[i], j);
        current := current / 2;
      }
    }
  }

  /** The inner loop's pin writes and waits for the bit that current holds lowest. */
  method SendBit(current: nat, time: nat, late: nat, later: nat) returns (edges: seq<Edge>, end: nat)
    ensures var up, down := (time + HALF) % UINT32, ((time + HALF) % UINT32 + HALF) % UINT32;
            && end == down
            && edges == [Edge(up + late, 1, true), Edge(up + late, 2, current % 2 == 1), Edge(down + later, 1, false)]
  {
    end := (time + HALF) % UINT32;
    edges := [Edge(end + late, 1, true)];
    if current % 2 == 1 {
      edges := edges + [Edge(end + late, 2, true)];
    } else {
      edges := edges + [Edge(end + late, 2, false)];
    }
    end := (end + HALF) % UINT32;
    edges := edges + [Edge(end + later, 1, false)];
  }

  /** A receiver follows the data pin and takes a bit at every falling clock. */
  function Sample(trace: seq<Edge>, level: bool): seq<bool> {
    if trace == [] then []
    else if trace[0].pin == 2 then Sample(trace[1..], trace[0].high)
    else (if trace[0].high then [] else [level]) + Sample(trace[1..], level)
  }

  lemma SampleThree(up: Edge, bit: Edge, down: Edge, rest: seq<Edge>, level: bool)
    requires up.pin == 1 && up.high && bit.pin == 2 && down.pin == 1 && !down.high
    ensures Sample([up, bit, down] + rest, level) == [bit.high] + Sample(rest, bit.high)
  {
    var t := [up, bit, down] + rest;
    assert t[1..] == [bit, down] + rest && t[1..][1..] == [down] + rest && t[1..][1..][1..] == rest;
    assert Sample(t, level) == Sample(t[1..], level) == Sample(t[1..][1..], bit.high);
  }

  lemma BitsBehind(data: seq<Uint32>, k: nat, t: seq<bool>)
    requires k < 32 * |data| && |t| == 32 * |data| - (k + 1)
    requires forall i :: 0 <= i < |t| ==> (t[i] <==> BitAt(data, k + 1 + i))
    ensures var r := [BitAt(data, k)] + t; forall i :: 0 <= i < |r| ==> (r[i] <==> BitAt(data, k + i))
  {
    var r := [BitAt(data, k)] + t;
    forall i | 0 <= i < |r| ensures r[i] <==> BitAt(data, k + i) {
      if i > 0 { assert t[i - 1] <==> BitAt(data, k + 1 + (i - 1)); }
    }
  }

  /** From any bit on, whatever the data pin was. */
  lemma {:induction false} SampleFrom(
      data: seq<Uint32>, start: nat, late: nat -> nat, trace: seq<Edge>, k: nat, level: bool)
    requires SyncTrace(data, start, late, trace, 32 * |data|) && k <= 32 * |data|
    ensures var r := Sample(trace[3 * k..], level);
            |r| == 32 * |data| - k && forall i :: 0 <= i < |r| ==> (r[i] <==> BitAt(data, k + i))
    decreases 32 * |data| - k
  {
    if k < 32 * |data| {
      var rest := trace[3 * (k + 1)..];
      assert SyncBit(data, start, late, trace, k);
      assert trace[3 * k..] == [trace[3 * k], trace[3 * k + 1], trace[3 * k + 2]] + rest;
      SampleThree(trace[3 * k], trace[3 * k + 1], trace[3 * k + 2], rest, level);
      SampleFrom(data, start, late, trace, k + 1, BitAt(data, k));
      BitsBehind(data, k, Sample(rest, BitAt(data, k)));
    }
  }

  /** Sampling gives the message back whatever the timing, with one clock pulse for each of its bits. */
  lemma SyncReceived(data: seq<Uint32>, start: nat, late: nat -> nat, trace: seq<Edge>, level: bool)
    requires SyncTrace(data, start, late, trace, 32 * |data|)
    ensures |Sample(trace, level)| == 32 * |data| && Pack(Sample(trace, level)) == data
  {
    SampleFrom(data, start, late, trace, 0, level);
    assert trace[3 * 0..] == trace;
    assert forall k :: 0 <= k < 32 * |data| ==> (Sample(trace, level)[k] <==> BitAt(data, 0 + k));
    PackIs(data, Sample(trace, level));
  }

  /** With the clock not wrapping, the clock edges are one half period apart, up to what the waits are late. */
  lemma SyncSpacing(data: seq<Uint32>, now: Uint32, late: nat -> nat, trace: seq<Edge>, k: nat)
    requires SyncTrace(data, (now + 1000) % UINT32, late, trace, 32 * |data|) && FitsClock(now, 32 * |data|, 0)
    requires k < 32 * |data|
    ensures trace[3 * k].at == now + 1000 + (2 * k + 1) * 600 + late(2 * k)
    ensures trace[3 * k + 2].at == now + 1000 + (2 * k + 2) * 600 + late(2 * k + 1)
  {
    assert SyncBit(data, (now + 1000) % UINT32, late, trace, k);
    HalvesFit(now, |data|, 2 * k + 1);
    HalvesFit(now, |data|, 2 * k + 2);
  }

  lemma HalvesFit(now: Uint32, words: nat, m: nat)
    requires m <= 64 * words && FitsClock(now, 32 * words, 0)
    ensures Halves((now + 1000) % UINT32, m) == now + 1000 + m * HALF
  {
    LessTurns(m, 64 * words);
    assert (now + 1000) % UINT32 == now + 1000;
  }

  lemma LessTurns(m: nat, most: nat)
    requires m <= most
    ensures m * HALF <= most * HALF
  {
  }
}
