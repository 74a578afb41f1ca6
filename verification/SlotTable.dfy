/** The slot table as a plain array of codes, and what set_slot_num does to it. */
module SlotTable {
  import opened Registers

  /** How many entries of s hold x. */
  function Count(s: seq<nat>, x: nat): nat {
    if s == [] then 0 else (if s[0] == x then 1 else 0) + Count(s[1..], x)
  }

  /** s with its first k entries equal to a turned into b. */
  function ReplaceFirst(s: seq<nat>, a: nat, b: nat, k: nat): (r: seq<nat>)
    ensures |r| == |s|
  {
    if s == [] || k == 0 then s
    else if s[0] == a then [b] + ReplaceFirst(s[1..], a, b, k - 1)
    else [s[0]] + ReplaceFirst(s[1..], a, b, k)
  }

  /** One more entry of the rewriting done. */
  lemma ReplaceNext(whole: seq<nat>, done: seq<nat>, rest: seq<nat>, a: nat, b: nat, left: nat)
    requires rest != [] && left > 0 && whole == done + ReplaceFirst(rest, a, b, left)
    ensures whole == if rest[0] == a then (done + [b]) + ReplaceFirst(rest[1..], a, b, left - 1)
                     else (done + [rest[0]]) + ReplaceFirst(rest[1..], a, b, left)
  {
  }

  lemma UpdateAt(done: seq<nat>, rest: seq<nat>, b: nat)
    requires rest != []
    ensures (done + rest)[|done| := b] == (done + [b]) + rest[1..]
    ensures done + rest == (done + [rest[0]]) + rest[1..]
  {
  }

  function Min(a: nat, b: nat): nat { if a < b then a else b }

  lemma {:induction false} CountBound(s: seq<nat>, x: nat, y: nat)
    requires x != y
    ensures Count(s, x) + Count(s, y) <= |s|
  {
    if s != [] { CountBound(s[1..], x, y); }
  }

  lemma {:induction false} CountZero(s: seq<nat>, x: nat)
    ensures Count(s, x) == 0 <==> x !in s
  {
    if s != [] { CountZero(s[1..], x); assert s == [s[0]] + s[1..]; }
  }

  /** The multiplicities move from a to b and nothing else moves; the entries changed are the
      lowest ones. */
  lemma {:induction false} ReplaceFirstMeaning(s: seq<nat>, a: nat, b: nat, k: nat)
    requires a != b
    ensures var r := ReplaceFirst(s, a, b, k);
            && Count(r, a) == Count(s, a) - Min(k, Count(s, a))
            && Count(r, b) == Count(s, b) + Min(k, Count(s, a))
            && (forall c :: c != a && c != b ==> Count(r, c) == Count(s, c))
            && (forall i :: 0 <= i < |s| ==> r[i] == s[i] || (s[i] == a && r[i] == b))
            && (forall i, j :: 0 <= i < j < |s| && s[i] == a && r[i] == a ==> r[j] == s[j])
  {
    if s != [] && k != 0 {
      var k' := if s[0] == a then k - 1 else k;
      var r := ReplaceFirst(s, a, b, k);
      ReplaceFirstMeaning(s[1..], a, b, k');
      assert r[1..] == ReplaceFirst(s[1..], a, b, k');
      forall i | 0 <= i < |s| ensures r[i] == s[i] || (s[i] == a && r[i] == b) {
        if i > 0 { assert r[i] == r[1..][i - 1] && s[i] == s[1..][i - 1]; }
      }
      forall i, j | 0 <= i < j < |s| && s[i] == a && r[i] == a ensures r[j] == s[j] {
        assert r[j] == r[1..][j - 1] && s[j] == s[1..][j - 1];
        if i > 0 { assert r[i] == r[1..][i - 1] && s[i] == s[1..][i - 1]; }
      }
    }
  }

  datatype Outcome = Ok | Err

  /** set_slot_num (flexpret_scheduler.c): refuses to hand out the last disabled slot. */
  function SetSlotNum(s: seq<nat>, id: nat, n: int): (seq<nat>, Outcome) {
    var held := Count(s, id);
    if n == held then (s, Ok)
    else if n > held then
      if |s| - Count(s, SLOT_D) + (n - held) > HW_THREADS - 1 then (s, Err)
      else (ReplaceFirst(s, SLOT_D, id, n - held), Ok)
    else (ReplaceFirst(s, id, SLOT_D, held - n), Ok)
  }

  /** Either nothing changes, and then the request would have left no disabled slot; or exactly n
      slots hold id, the disabled count moves by the opposite amount, and every slot of anyone else
      stays where it is. */
  lemma SetSlotNumMeaning(s: seq<nat>, id: nat, n: nat)
    requires |s| == HW_THREADS && id != SLOT_D
    ensures var (r, out) := SetSlotNum(s, id, n);
            && |r| == |s|
            && (out == Err <==> n > Count(s, id) && Count(s, SLOT_D) <= n - Count(s, id))
            && (out == Err ==> r == s)
            && (out == Ok ==> Count(r, id) == n && Count(r, SLOT_D) == Count(s, SLOT_D) + Count(s, id) - n)
            && (forall i :: 0 <= i < |s| && s[i] != id && s[i] != SLOT_D ==> r[i] == s[i])
            && (forall i :: 0 <= i < |s| && r[i] != id && r[i] != SLOT_D ==> r[i] == s[i])
            && (forall c :: c != id && c != SLOT_D ==> Count(r, c) == Count(s, c))
  {
    var held := Count(s, id);
    if n > held { ReplaceFirstMeaning(s, SLOT_D, id, n - held); }
    else if n < held { ReplaceFirstMeaning(s, id, SLOT_D, held - n); }
  }
}
