/** The ready queue as a plain list: stable insertion by priority, lower value first. */
module ReadyList {
  /** A queued job: its place in the pool, its priority (a deadline in t6.c) and its id. */
  datatype Item = Item(node: nat, prio: int, id: int)

  ghost predicate Sorted(s: seq<Item>) {
    forall i, j :: 0 <= i < j < |s| ==> s[i].prio <= s[j].prio
  }

  ghost predicate DistinctNodes(s: seq<Item>) {
    forall i, j :: 0 <= i < j < |s| ==> s[i].node != s[j].node
  }

  /** How many items the search of ready_queue_add passes over. */
  function Place(s: seq<Item>, prio: int): (k: nat)
    ensures k <= |s|
    ensures forall i :: 0 <= i < k ==> s[i].prio <= prio
    ensures k < |s| ==> s[k].prio > prio
  {
    if s == [] || s[0].prio > prio then 0 else 1 + Place(s[1..], prio)
  }

  lemma {:induction false} PlaceIs(s: seq<Item>, prio: int, k: nat)
    requires k <= |s| && (forall i :: 0 <= i < k ==> s[i].prio <= prio) && (k < |s| ==> s[k].prio > prio)
    ensures Place(s, prio) == k
  {
    if k > 0 { PlaceIs(s[1..], prio, k - 1); }
  }

  function Insert(s: seq<Item>, x: Item): seq<Item> {
    s[..Place(s, x.prio)] + [x] + s[Place(s, x.prio)..]
  }

  lemma InsertAt(s: seq<Item>, x: Item, i: nat)
    requires i <= |s|
    ensures |Insert(s, x)| == |s| + 1
    ensures Insert(s, x)[i] == var k := Place(s, x.prio); if i < k then s[i] else if i == k then x else s[i - 1]
  {
  }

  /** In a sorted list the new item goes behind every item at most as large and before every larger
      one: the list stays sorted, and equals leave in the order they came. */
  lemma InsertMeaning(s: seq<Item>, x: Item)
    requires Sorted(s)
    ensures Sorted(Insert(s, x))
    ensures forall i :: 0 <= i < |s| ==> (i < Place(s, x.prio) <==> s[i].prio <= x.prio)
  {
    var r := Insert(s, x);
    forall i, j | 0 <= i < j < |r| ensures r[i].prio <= r[j].prio {
      InsertAt(s, x, i);
      InsertAt(s, x, j);
    }
  }

  lemma InsertKeepsAll(s: seq<Item>, x: Item)
    ensures multiset(Insert(s, x)) == multiset(s) + multiset{x}
  {
    assert s == s[..Place(s, x.prio)] + s[Place(s, x.prio)..];
  }

  lemma InsertDistinct(s: seq<Item>, x: Item)
    requires DistinctNodes(s) && forall i :: 0 <= i < |s| ==> s[i].node != x.node
    ensures DistinctNodes(Insert(s, x))
  {
    var r := Insert(s, x);
    forall i, j | 0 <= i < j < |r| ensures r[i].node != r[j].node {
      InsertAt(s, x, i);
      InsertAt(s, x, j);
    }
  }

  /** Every job of was is still in s, in the old order, and whatever stands in front of one of them
      without having been in was is strictly more urgent than it. */
  ghost predicate Kept(was: seq<Item>, s: seq<Item>) {
    was == [] || (s != [] && (
      if s[0] == was[0] then Kept(was[1..], s[1..]) else s[0].prio < was[0].prio && Kept(was, s[1..])))
  }

  lemma {:induction false} KeptSame(s: seq<Item>)
    ensures Kept(s, s)
  {
    if s != [] { KeptSame(s[1..]); }
  }

  lemma {:induction false} KeptInsert(was: seq<Item>, s: seq<Item>, x: Item)
    requires Kept(was, s) && DistinctNodes(s) && forall i :: 0 <= i < |s| ==> s[i].node != x.node
    ensures Kept(was, Insert(s, x))
  {
    if was != [] {
      var r := Insert(s, x);
      if s[0].prio > x.prio {
        assert r == [x] + s && r[1..] == s;
        var _ := KeptFirst(was, s);
      } else {
        assert r[0] == s[0] && r[1..] == Insert(s[1..], x);
        KeptInsert(if s[0] == was[0] then was[1..] else was, s[1..], x);
      }
    }
  }

  /** The first of the earlier jobs is still there, at the head or behind something more urgent. */
  lemma {:induction false} KeptFirst(was: seq<Item>, s: seq<Item>) returns (k: nat)
    requires Kept(was, s) && was != []
    ensures k < |s| && s[k] == was[0] && Kept(was[1..], s[k + 1..])
    ensures forall i :: 0 <= i < k ==> s[i].prio < was[0].prio
  {
    if s[0] == was[0] {
      k := 0;
    } else {
      k := KeptFirst(was, s[1..]);
      k := k + 1;
    }
  }

  lemma {:induction false} KeptTrans(a: seq<Item>, b: seq<Item>, c: seq<Item>)
    requires Kept(a, b) && Kept(b, c)
    ensures Kept(a, c)
    decreases |c|
  {
    if a != [] {
      if c[0] == b[0] {
        KeptTrans(if a[0] == b[0] then a[1..] else a, b[1..], c[1..]);
      } else {
        KeptTrans(a, b, c[1..]);
      }
    }
  }

  /** at gives the places of was in s, in order, and between two of them stand only jobs more
      urgent than the next. */
  ghost predicate Places(at: seq<nat>, was: seq<Item>, s: seq<Item>) {
    && |at| == |was|
    && (forall i :: 0 <= i < |at| ==> at[i] < |s| && s[at[i]] == was[i])
    && (forall i, j :: 0 <= i < j < |at| ==> at[i] < at[j])
    && (forall i, p :: 0 <= i < |at| && (if i == 0 then 0 else at[i - 1] + 1) <= p < at[i] ==> s[p].prio < was[i].prio)
  }

  lemma PlacesBehind(k: nat, rest: seq<nat>, at: seq<nat>, was: seq<Item>, s: seq<Item>)
    requires k < |s| && was != [] && s[k] == was[0] && forall i :: 0 <= i < k ==> s[i].prio < was[0].prio
    requires Places(rest, was[1..], s[k + 1..])
    requires |at| == |rest| + 1 && at[0] == k && forall i :: 1 <= i < |at| ==> at[i] == rest[i - 1] + k + 1
    ensures Places(at, was, s)
  {
    var later := s[k + 1..];
    forall i | 0 <= i < |at| ensures at[i] < |s| && s[at[i]] == was[i] {
      if i > 0 { assert later[rest[i - 1]] == was[1..][i - 1]; }
    }
    forall i, p | 0 <= i < |at| && (if i == 0 then 0 else at[i - 1] + 1) <= p < at[i] ensures s[p].prio < was[i].prio {
      if i > 0 {
        assert later[p - k - 1] == s[p] && was[1..][i - 1] == was[i];
      }
    }
  }

  lemma {:induction false} KeptMeaning(was: seq<Item>, s: seq<Item>) returns (at: seq<nat>)
    requires Kept(was, s)
    ensures Places(at, was, s)
  {
    at := [];
    if was != [] {
      var k := KeptFirst(was, s);
      var rest := KeptMeaning(was[1..], s[k + 1..]);
      at := [k] + seq(|rest|, i requires 0 <= i < |rest| => rest[i] + k + 1);
      PlacesBehind(k, rest, at, was, s);
    }
  }
}
