/** Sampling two 64-bit counters through 32-bit reads, any time passing between the reads. */
module Stats {
  import opened Numbers

  datatype Stats = Stats(cycle: nat, cycleh: nat, instret: nat, instreth: nat)

  /** A counter by instant: it never goes back and stays below 2^64. */
  ghost predicate Counter(c: nat -> nat) {
    (forall i, j :: 0 <= i <= j ==> c(i) <= c(j)) && (forall i: nat :: c(i) < UINT32 * UINT32)
  }

  function High(v: nat): nat {
    v / UINT32
  }

  function Low(v: nat): nat {
    v % UINT32
  }

  lemma Order(a: nat, b: nat)
    requires a <= b < UINT32 * UINT32
    ensures High(a) <= High(b) < UINT32
    ensures High(a) * UINT32 + Low(a) == a
  {
  }

  /** High words that agree around a low read name the value it was read from. */
  lemma Untorn(c: nat -> nat, before: nat, read: nat, after: nat)
    requires Counter(c) && before <= read <= after
    ensures High(c(before)) <= High(c(read)) <= High(c(after)) < UINT32
    ensures High(c(before)) == High(c(after)) ==> High(c(before)) * UINT32 + Low(c(read)) == c(read)
  {
    Order(c(before), c(read));
    Order(c(read), c(after));
  }

  /** Without the second look the pair can be a value the counter never had. */
  lemma OneLookTears()
    ensures exists c: nat -> nat ::
              Counter(c) && forall i: nat :: c(i) != High(c(0)) * UINT32 + Low(c(1))
  {
    var c: nat -> nat := i => if i == 0 then UINT32 - 1 else UINT32;
    assert Counter(c);
    assert High(c(0)) * UINT32 + Low(c(1)) == 0;
    assert forall i: nat :: c(i) != High(c(0)) * UINT32 + Low(c(1));
  }

  /** How many high words have been passed by instant t. */
  ghost function Turns(cycle: nat -> nat, instret: nat -> nat, t: nat): nat {
    High(cycle(t)) + High(instret(t))
  }

  /** The four reads and the second look, from instant t on. */
  method Look(cycle: nat -> nat, instret: nat -> nat, t: nat) returns (s: Stats, again: bool, end: nat)
    requires Counter(cycle) && Counter(instret)
    ensures t + 4 < end && Low(cycle(t + 2)) == s.cycle && Low(instret(t + 3)) == s.instret
    ensures Turns(cycle, instret, t) + (if again then 1 else 0) <= Turns(cycle, instret, end) < 2 * UINT32
    ensures !again ==> s.cycleh * UINT32 + s.cycle == cycle(t + 2) && s.instreth * UINT32 + s.instret == instret(t + 3)
  {
    var cycleh := High(cycle(t));
    var instreth := High(instret(t + 1));
    s := Stats(Low(cycle(t + 2)), cycleh, Low(instret(t + 3)), instreth);
    again := High(cycle(t + 4)) != s.cycleh;
    end := t + 5;
    if !again {
      again := High(instret(t + 5)) != s.instreth;
      end := t + 6;
    }
    Untorn(cycle, t, t + 2, t + 4);
    Untorn(cycle, t, t + 4, end);
    Untorn(instret, t + 1, t + 3, t + 5);
    Untorn(instret, t, t + 1, t + 5);
    Untorn(instret, t, t + 5, end);
  }

  /** stats_get: reads happen at instants 0, 1, 2, ... and both pairs are values their counter really
      had, at the instants their low words were read; it goes round again only after a high word moved. */
  method StatsGet(cycle: nat -> nat, instret: nat -> nat)
    returns (s: Stats, ghost c: nat, ghost i: nat, ghost end: nat, ghost rounds: nat)
    requires Counter(cycle) && Counter(instret)
    ensures s.cycleh * UINT32 + s.cycle == cycle(c) && s.instreth * UINT32 + s.instret == instret(i)
    ensures s.cycle < UINT32 && s.instret < UINT32
    ensures c < i < end
    ensures rounds <= 1 + Turns(cycle, instret, end) - Turns(cycle, instret, 0)
  {
    var again, t;
    s, again, t := Look(cycle, instret, 0);
    c, i, rounds := 2, 3, 1;
    while again
      invariant Turns(cycle, instret, t) < 2 * UINT32 && c < i < t
      invariant rounds + (if again then 1 else 0) <= 1 + Turns(cycle, instret, t) - Turns(cycle, instret, 0)
      invariant !again ==> s.cycleh * UINT32 + s.cycle == cycle(c) && s.instreth * UINT32 + s.instret == instret(i)
      invariant s.cycle < UINT32 && s.instret < UINT32
      decreases again, 2 * UINT32 - Turns(cycle, instret, t)
    {
      c, i, rounds := t + 2, t + 3, rounds + 1;
      s, again, t := Look(cycle, instret, t);
    }
    end := t;
  }
}
