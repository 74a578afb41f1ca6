/** Duff's device: a copy loop unrolled eight times and entered in the middle. */
module Duff {
  /** C's remainder and quotient, which truncate. */
  function CRem(a: int, b: int): int
    requires b > 0
  {
    if a >= 0 then a % b else -(-a % b)
  }

  function CDiv(a: int, b: int): int
    requires b > 0
  {
    if a >= 0 then a / b else -(-a / b)
  }

  /** How many elements duffcopy moves. */
  function Moved(count: int): (n: nat)
    ensures n == count <==> count >= 1
    ensures count < 1 ==> n == if count % 8 == 0 then 8 else 0
  {
    if count >= 1 then count else if CRem(count, 8) == 0 then 8 else 0
  }

  /** The plain copy: n elements, one at a time, upwards. */
  function Forward(m: seq<int>, to: nat, from: nat, n: nat): (r: seq<int>)
    requires to + n <= |m| && from + n <= |m|
    ensures |r| == |m|
    decreases n
  {
    if n == 0 then m else Forward(m[to := m[from]], to + 1, from + 1, n - 1)
  }

  lemma {:induction false} ForwardMore(m: seq<int>, to: nat, from: nat, n: nat)
    requires to + n < |m| && from + n < |m|
    ensures var r := Forward(m, to, from, n); Forward(m, to, from, n + 1) == r[to + n := r[from + n]]
    decreases n
  {
    if n > 0 { ForwardMore(m[to := m[from]], to + 1, from + 1, n - 1); }
  }

  /** What the plain copy does, overlapping or not: nothing outside the target changes; moving down it
      is the old source block; moving up, each element equals what its source holds in the end, so that
      a target overlapping its source repeats the elements in between over and over. */
  lemma {:induction false} ForwardMeaning(m: seq<int>, to: nat, from: nat, n: nat, i: nat)
    requires to + n <= |m| && from + n <= |m| && i < |m|
    ensures i < to || to + n <= i ==> Forward(m, to, from, n)[i] == m[i]
    ensures to <= i < to + n && to <= from ==> Forward(m, to, from, n)[i] == m[from + (i - to)]
    ensures to <= i < to + n && from < to ==> Forward(m, to, from, n)[i] == Forward(m, to, from, n)[from + (i - to)]
    decreases n
  {
    if n > 0 {
      var p := m[to := m[from]];
      ForwardMeaning(p, to + 1, from + 1, n - 1, i);
      if i == to && from < to { ForwardMeaning(p, to + 1, from + 1, n - 1, from); }
    }
  }

  /** The pointers have come as far as the memory, which is the plain copy so far. */
  ghost predicate Doing(mem: seq<int>, t: nat, f: nat, was: seq<int>, to: nat, from: nat) {
    && to <= t <= |mem| && f <= |mem| && f - from == t - to && |was| == |mem|
    && mem == Forward(was, to, from, t - to)
  }

  /** One of the eight copies. */
  method CopyOne(mem: array<int>, t: nat, f: nat, ghost was: seq<int>, ghost to: nat, ghost from: nat)
    returns (t': nat, f': nat)
    requires t < mem.Length && f < mem.Length && Doing(mem[..], t, f, was, to, from)
    modifies mem
    ensures t' == t + 1 && f' == f + 1 && Doing(mem[..], t', f', was, to, from)
  {
    ForwardMore(was, to, from, t - to);
    mem[t] := mem[f];
    t', f' := t + 1, f + 1;
  }

  /** The loop body from a case label on: entry of the eight copies are left. */
  method Pass(mem: array<int>, t0: nat, f0: nat, entry: nat, ghost was: seq<int>, ghost to: nat, ghost from: nat)
    returns (t: nat, f: nat)
    requires 1 <= entry <= 8 && t0 + entry <= mem.Length && f0 + entry <= mem.Length
    requires Doing(mem[..], t0, f0, was, to, from)
    modifies mem
    ensures t == t0 + entry && f == f0 + entry && Doing(mem[..], t, f, was, to, from)
  {
    t, f := t0, f0;
    if entry >= 8 { t, f := CopyOne(mem, t, f, was, to, from); }
    if entry >= 7 { t, f := CopyOne(mem, t, f, was, to, from); }
    if entry >= 6 { t, f := CopyOne(mem, t, f, was, to, from); }
    if entry >= 5 { t, f := CopyOne(mem, t, f, was, to, from); }
    if entry >= 4 { t, f := CopyOne(mem, t, f, was, to, from); }
    if entry >= 3 { t, f := CopyOne(mem, t, f, was, to, from); }
    if entry >= 2 { t, f := CopyOne(mem, t, f, was, to, from); }
    t, f := CopyOne(mem, t, f, was, to, from);
  }

  /** duffcopy over one memory, so that the two blocks may overlap. */
  method Duffcopy(mem: array<int>, to: nat, from: nat, count: int)
    requires to + Moved(count) <= mem.Length && from + Moved(count) <= mem.Length
    modifies mem
    ensures mem[..] == Forward(old(mem[..]), to, from, Moved(count))
  {
    ghost var was := mem[..];
    var n := CDiv(count + 7, 8);
    var rem := CRem(count, 8);
    if rem >= 0 {
      var t: nat, f: nat := Pass(mem, to, from, if rem == 0 then 8 else rem, was, to, from);
      n := n - 1;
      while n > 0
        invariant Doing(mem[..], t, f, was, to, from)
        invariant if n > 0 then t - to == count - 8 * n else t - to == Moved(count)
        decreases n
      {
        t, f := Pass(mem, t, f, 8, was, to, from);
        n := n - 1;
      }
    }
  }
}
