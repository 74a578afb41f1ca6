/** The linked ready and free lists of t5.c and t6.c over a fixed pool of job records. */
module ReadyQueue {
  import opened ReadyList

  class Job {
    const node: nat
    var task: int
    var priority: int
    var next: Job?
    var id: int

    constructor (node: nat)
      ensures this.node == node
    {
      this.node := node;
      task, priority, next, id := 0, 0, null, 0;
    }
  }

  /** The chain from first runs through s and ends. */
  ghost predicate Linked(first: Job?, s: seq<Job>)
    reads s
  {
    && first == (if s == [] then null else s[0])
    && forall i {:trigger s[i].next} :: 0 <= i < |s| ==> s[i].next == if i + 1 < |s| then s[i + 1] else null
  }

  ghost predicate Distinct(s: seq<Job>) {
    forall i, j :: 0 <= i < j < |s| ==> s[i] != s[j]
  }

  /** ready and free together are the pool, each record once. */
  ghost predicate Partition(pool: seq<Job>, ready: seq<Job>, free: seq<Job>) {
    && Distinct(ready + free)
    && (forall i :: 0 <= i < |pool| ==> pool[i] in ready || pool[i] in free)
    && (forall i :: 0 <= i < |ready| ==> ready[i] in pool)
    && (forall i :: 0 <= i < |free| ==> free[i] in pool)
  }

  lemma Apart(pool: seq<Job>, ready: seq<Job>, free: seq<Job>)
    requires Partition(pool, ready, free)
    ensures forall i, j :: 0 <= i < |ready| && 0 <= j < |free| ==> ready[i] != free[j]
    ensures Distinct(ready) && Distinct(free)
  {
    var both := ready + free;
    forall i, j | 0 <= i < |ready| && 0 <= j < |free| ensures ready[i] != free[j] {
      assert both[i] == ready[i] && both[|ready| + j] == free[j];
    }
    forall i, j | 0 <= i < j < |ready| ensures ready[i] != ready[j] {
      assert both[i] == ready[i] && both[j] == ready[j];
    }
    forall i, j | 0 <= i < j < |free| ensures free[i] != free[j] {
      assert both[|ready| + i] == free[i] && both[|ready| + j] == free[j];
    }
  }

  lemma AllFree(pool: seq<Job>)
    requires Distinct(pool)
    ensures Partition(pool, [], pool)
  {
    assert [] + pool == pool;
  }

  /** A record moves from the front of free to place k of ready. */
  lemma PartitionAdd(pool: seq<Job>, ready: seq<Job>, free: seq<Job>, k: nat)
    requires Partition(pool, ready, free) && free != [] && k <= |ready|
    ensures Partition(pool, ready[..k] + [free[0]] + ready[k..], free[1..])
  {
    var r, f := ready[..k] + [free[0]] + ready[k..], free[1..];
    Apart(pool, ready, free);
    forall i, j | 0 <= i < j < |r + f| ensures (r + f)[i] != (r + f)[j] {
      assert (r + f)[i] == if i < k then ready[i] else if i == k then free[0]
                           else if i <= |ready| then ready[i - 1] else free[i - |ready|];
      assert (r + f)[j] == if j < k then ready[j] else if j == k then free[0]
                           else if j <= |ready| then ready[j - 1] else free[j - |ready|];
    }
    forall x | x in ready ensures x in r {
      var i :| 0 <= i < |ready| && ready[i] == x;
      assert r[if i < k then i else i + 1] == x;
    }
    assert r[k] == free[0];
    forall x | x in free ensures x in r || x in f {
      var i :| 0 <= i < |free| && free[i] == x;
      if i > 0 { assert f[i - 1] == x; }
    }
  }

  /** A record moves from the front of ready to the front of free. */
  lemma PartitionPop(pool: seq<Job>, ready: seq<Job>, free: seq<Job>)
    requires Partition(pool, ready, free) && ready != []
    ensures Partition(pool, ready[1..], [ready[0]] + free)
  {
    var r, f := ready[1..], [ready[0]] + free;
    Apart(pool, ready, free);
    forall i, j | 0 <= i < j < |r + f| ensures (r + f)[i] != (r + f)[j] {
      assert (r + f)[i] == if i < |r| then ready[i + 1] else if i == |r| then ready[0] else free[i - |ready|];
      assert (r + f)[j] == if j < |r| then ready[j + 1] else if j == |r| then ready[0] else free[j - |ready|];
    }
    forall x | x in ready ensures x in r || x in f {
      var i :| 0 <= i < |ready| && ready[i] == x;
      if i > 0 { assert r[i - 1] == x; } else { assert f[0] == x; }
    }
  }

  ghost function ItemsOf(s: seq<Job>): (r: seq<Item>)
    reads s
    ensures |r| == |s|
  {
    seq(|s|, i requires 0 <= i < |s| reads s => Item(s[i].node, s[i].priority, s[i].id))
  }

  ghost function NodesOf(s: seq<Job>): seq<nat> {
    seq(|s|, i requires 0 <= i < |s| => s[i].node)
  }

  /** Records are told apart by their place in the pool. */
  ghost predicate Numbered(pool: seq<Job>) {
    forall i :: 0 <= i < |pool| ==> pool[i].node == i
  }

  lemma ItemsDistinct(pool: seq<Job>, ready: seq<Job>, free: seq<Job>)
    requires Numbered(pool) && Partition(pool, ready, free)
    ensures DistinctNodes(ItemsOf(ready))
    ensures forall i, j :: 0 <= i < |ready| && 0 <= j < |free| ==> ready[i].node != free[j].node
  {
    Apart(pool, ready, free);
  }

  class Queue {
    const jobs: seq<Job>
    var head: Job?
    var avail: Job?
    ghost var ready: seq<Job>
    ghost var free: seq<Job>

    /** Two chains, acyclic and disjoint, together exactly the pool; the ready one is sorted. */
    ghost predicate Valid()
      reads this, jobs, ready, free
    {
      && Partition(jobs, ready, free)
      && Linked(head, ready) && Linked(avail, free)
      && Sorted(ItemsOf(ready))
    }

    /** The ready queue's contents, first to run first. */
    ghost function Items(): seq<Item>
      reads this, ready
    {
      ItemsOf(ready)
    }

    constructor (pool: seq<Job>)
      ensures jobs == pool
    {
      jobs := pool;
    }

    /** ready_queue_init: every record is free, in pool order. */
    method Init()
      requires |jobs| > 0 && Distinct(jobs)
      modifies this, jobs
      ensures Valid() && ready == [] && free == jobs
    {
      head := null;
      avail := jobs[0];
      var i := 0;
      while i < |jobs| - 1
        invariant 0 <= i <= |jobs| - 1
        invariant head == null && avail == jobs[0]
        invariant forall j :: 0 <= j < i ==> jobs[j].next == jobs[j + 1]
      {
        jobs[i].next := jobs[i + 1];
        i := i + 1;
      }
      jobs[|jobs| - 1].next := null;
      ready, free := [], jobs;
      AllFree(jobs);
    }

    /** ready_queue_add. It reads through avail before it looks whether anything is there, so its
        caller must leave a free record. */
    method Add(task: int, priority: int, id: int)
      requires Valid() && free != []
      modifies this, jobs
      ensures Valid()
      ensures Items() == Insert(old(Items()), Item(old(free)[0].node, priority, id))
      ensures free == old(free)[1..]
      ensures old(free)[0].task == task && old(free)[0].priority == priority && old(free)[0].id == id
      ensures forall i :: 0 <= i < |jobs| && jobs[i] != old(free)[0] ==>
                jobs[i].task == old(jobs[i].task) && jobs[i].priority == old(jobs[i].priority)
                && jobs[i].id == old(jobs[i].id)
      ensures var k := Place(old(Items()), priority); ready == old(ready)[..k] + [old(free)[0]] + old(ready)[k..]
    {
      ghost var items := Items();
      var newJob := TakeFree(task, priority, id);
      ghost var k := Link(newJob, items);
      InsertMeaning(items, Item(newJob.node, priority, id));
      PartitionAdd(jobs, old(ready), old(free), k);
    }

    /** The search and insertion of ready_queue_add. */
    method Link(newJob: Job, ghost items: seq<Item>) returns (ghost k: nat)
      requires Linked(head, ready) && Linked(avail, free) && Distinct(ready)
      requires newJob in jobs && newJob !in ready && newJob !in free && items == Items()
      requires forall i :: 0 <= i < |ready| ==> ready[i] in jobs && ready[i] !in free
      modifies `head, `ready, jobs`next
      ensures k == Place(items, old(newJob.priority)) <= |old(ready)|
      ensures ready == old(ready)[..k] + [newJob] + old(ready)[k..]
      ensures Linked(head, ready) && Linked(avail, free)
      ensures Items() == Insert(items, Item(newJob.node, old(newJob.priority), old(newJob.id)))
    {
      var prev, current, place := Search(newJob.priority);
      k := place;
      assert prev !in free && (prev == null || prev in jobs);
      Splice(newJob, prev, current, k);
      assert Linked(avail, free);
      assert ItemsOf(old(ready)) == items;
      ItemsInserted(old(ready), newJob, k, items);
    }

    /** The first free record, taken off its list and filled in. */
    method TakeFree(task: int, priority: int, id: int) returns (newJob: Job)
      requires Linked(head, ready) && Linked(avail, free) && Partition(jobs, ready, free) && free != []
      modifies `avail, `free, jobs
      ensures newJob == old(free)[0] && free == old(free)[1..]
      ensures newJob.task == task && newJob.priority == priority && newJob.id == id
      ensures forall i :: 0 <= i < |jobs| && jobs[i] != newJob ==>
                jobs[i].task == old(jobs[i].task) && jobs[i].priority == old(jobs[i].priority)
                && jobs[i].id == old(jobs[i].id)
      ensures Linked(head, ready) && Linked(avail, free) && Items() == old(Items())
      ensures newJob in jobs && newJob !in ready && newJob !in free && Distinct(ready)
      ensures forall i :: 0 <= i < |ready| ==> ready[i] in jobs && ready[i] !in free
    {
      Apart(jobs, ready, free);
      newJob := avail;
      avail := newJob.next;
      newJob.task := task;
      newJob.priority := priority;
      newJob.id := id;
      free := free[1..];
    }

    /** The search loop of ready_queue_add: the first job with a larger priority, and the one before. */
    method Search(priority: int) returns (prev: Job?, current: Job?, ghost k: nat)
      requires Linked(head, ready)
      ensures k <= |ready| && k == Place(Items(), priority)
      ensures current == if k < |ready| then ready[k] else null
      ensures prev == if k == 0 then null else ready[k - 1]
    {
      prev, current, k := null, head, 0;
      while current != null && current.priority <= priority
        invariant 0 <= k <= |ready|
        invariant current == if k < |ready| then ready[k] else null
        invariant prev == if k == 0 then null else ready[k - 1]
        invariant forall i :: 0 <= i < k ==> ready[i].priority <= priority
        decreases |ready| - k
      {
        prev := current;
        current := current.next;
        k := k + 1;
      }
      PlaceIs(Items(), priority, k);
    }

    /** The insertion at the end of ready_queue_add. */
    method Splice(newJob: Job, prev: Job?, current: Job?, ghost k: nat)
      requires Linked(head, ready) && Distinct(ready) && newJob !in ready && k <= |ready|
      requires current == if k < |ready| then ready[k] else null
      requires prev == if k == 0 then null else ready[k - 1]
      modifies `head, `ready, (if prev == null then {newJob} else {newJob, prev})`next
      ensures ready == old(ready)[..k] + [newJob] + old(ready)[k..] && Linked(head, ready)
    {
      if prev == null {
        newJob.next := head;
        head := newJob;
      } else {
        newJob.next := current;
        prev.next := newJob;
      }
      Relinked(head, ready, newJob, k);
      ready := ready[..k] + [newJob] + ready[k..];
    }

    /** ready_queue_peek. */
    method Peek() returns (j: Job?)
      requires Valid()
      ensures j == (if ready == [] then null else ready[0])
    {
      j := head;
    }

    /** How many records the next batch may use; the caller of ready_queue_add has to know. */
    method Room() returns (n: nat)
      requires Valid()
      ensures n == |free|
    {
      n := 0;
      var at := avail;
      while at != null
        invariant n <= |free| && at == (if n < |free| then free[n] else null)
        decreases |free| - n
      {
        at := at.next;
        n := n + 1;
      }
    }

    /** ready_queue_pop: the first job goes back to the front of the free list. */
    method Pop()
      requires Valid() && ready != []
      modifies this, jobs`next
      ensures Valid()
      ensures Items() == old(Items())[1..]
      ensures ready == old(ready)[1..] && free == [old(ready)[0]] + old(free)
    {
      Apart(jobs, ready, free);
      PartitionPop(jobs, ready, free);
      var pop := head;
      head := pop.next;
      pop.next := avail;
      avail := pop;
      free := [ready[0]] + free;
      ready := ready[1..];
      assert Items() == old(Items())[1..];
      SortedTail(old(Items()));
    }
  }

  lemma Relinked(first: Job?, s: seq<Job>, j: Job, k: nat)
    requires k <= |s| && first == (if k == 0 then j else s[0])
    requires j.next == if k < |s| then s[k] else null
    requires k > 0 ==> s[k - 1].next == j
    requires forall i {:trigger s[i].next} :: 0 <= i < |s| && i != k - 1 ==>
               s[i].next == if i + 1 < |s| then s[i + 1] else null
    ensures Linked(first, s[..k] + [j] + s[k..])
  {
    var r := s[..k] + [j] + s[k..];
    forall i | 0 <= i < |r| ensures r[i].next == if i + 1 < |r| then r[i + 1] else null {
      assert r[i] == if i < k then s[i] else if i == k then j else s[i - 1];
    }
  }

  lemma ItemsInserted(s: seq<Job>, j: Job, k: nat, items: seq<Item>)
    requires k <= |s| && ItemsOf(s) == items && k == Place(items, j.priority)
    ensures ItemsOf(s[..k] + [j] + s[k..]) == Insert(items, Item(j.node, j.priority, j.id))
  {
    var r, x := s[..k] + [j] + s[k..], Item(j.node, j.priority, j.id);
    forall i | 0 <= i < |r| ensures ItemsOf(r)[i] == Insert(items, x)[i] {
      InsertAt(items, x, i);
    }
    InsertAt(items, x, 0);
  }

  lemma SortedTail(s: seq<Item>)
    requires Sorted(s) && s != []
    ensures Sorted(s[1..])
  {
  }
}
