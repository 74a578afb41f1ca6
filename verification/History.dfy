/** What a sequence of writes leaves in a cell: the value written last. */
module History {
  /** What one event does to the cell. */
  datatype Write<T> = Keep | Put(value: T)

  /** The value written last, and was if nothing was written. */
  function Last<T>(was: T, writes: seq<Write<T>>): T {
    if writes == [] then was
    else if writes[|writes| - 1].Put? then writes[|writes| - 1].value
    else Last(was, writes[..|writes| - 1])
  }

  /** The same read from the front. */
  lemma {:induction false} LastFirst<T>(was: T, x: Write<T>, writes: seq<Write<T>>)
    ensures Last(was, [x] + writes) == Last(if x.Put? then x.value else was, writes)
    decreases |writes|
  {
    var all := [x] + writes;
    if writes == [] {
      assert all[..0] == [];
    } else {
      assert all[..|all| - 1] == [x] + writes[..|writes| - 1];
      LastFirst(was, x, writes[..|writes| - 1]);
    }
  }

  /** v is left exactly if some event wrote it and none after it wrote, or v was there and none wrote. */
  lemma {:induction false} LastMeaning<T>(was: T, writes: seq<Write<T>>, v: T)
    ensures Last(was, writes) == v <==>
              || (was == v && forall i :: 0 <= i < |writes| ==> writes[i].Keep?)
              || exists k :: 0 <= k < |writes| && writes[k] == Put(v)
                             && forall i :: k < i < |writes| ==> writes[i].Keep?
  {
    if writes != [] {
      var n := |writes| - 1;
      var less := writes[..n];
      LastMeaning(was, less, v);
      if writes[n].Keep? {
        if k :| 0 <= k < n && less[k] == Put(v) && forall i :: k < i < n ==> less[i].Keep? {
          assert writes[k] == Put(v) && forall i :: k < i <= n ==> writes[i].Keep?;
        }
        if k :| 0 <= k <= n && writes[k] == Put(v) && forall i :: k < i <= n ==> writes[i].Keep? {
          assert less[k] == Put(v) && forall i :: k < i < n ==> less[i] == writes[i];
        }
      }
    }
  }
}
