/** The pool's jobs and their order, and the array heap that holds the waiting ones. */
module JobQueue {
  import opened Wrappers

  /** Interactive is 0, UserBackground 1, LowPriority 2, Idle 3. */
  type Priority = p: nat | p < 4

  datatype Job<Fn> = Job(priority: Priority, sequence: nat, fn: Option<Fn>)

  /** `Job::operator<`: the greatest job is the one to run first. */
  predicate Less<Fn>(a: Job<Fn>, b: Job<Fn>) {
    if a.priority != b.priority then a.priority > b.priority else a.sequence > b.sequence
  }

  /** A job with a smaller priority number is the greater one, and among equals the one submitted earlier. */
  lemma LessIsAStrictOrder<Fn>(a: Job<Fn>, b: Job<Fn>, c: Job<Fn>)
    ensures !Less(a, b) <==> a.priority < b.priority || (a.priority == b.priority && a.sequence <= b.sequence)
    ensures !Less(a, a)
    ensures Less(a, b) && Less(b, c) ==> Less(a, c)
    ensures !Less(a, b) && !Less(b, a) ==> a.priority == b.priority && a.sequence == b.sequence
  {
  }

  function Parent(i: nat): nat
    requires i > 0
  {
    (i - 1) / 2
  }

  /** No job is greater than its parent. */
  ghost predicate Heap<Fn>(a: seq<Job<Fn>>) {
    forall i :: 0 < i < |a| ==> !Less(a[Parent(i)], a[i])
  }

  lemma {:induction false} TopIsGreatest<Fn>(a: seq<Job<Fn>>, i: nat)
    requires Heap(a) && i < |a|
    ensures !Less(a[0], a[i])
  {
    if i > 0 {
      TopIsGreatest(a, Parent(i));
    }
  }

  function Swap<T>(a: seq<T>, i: nat, j: nat): (r: seq<T>)
    requires i < |a| && j < |a|
    ensures multiset(r) == multiset(a)
  {
    a[i := a[j]][j := a[i]]
  }

  /** A heap but for the job at `i`, which may still have to rise. */
  ghost predicate Rising<Fn>(a: seq<Job<Fn>>, i: nat) {
    && i < |a|
    && (forall k :: 0 < k < |a| && k != i ==> !Less(a[Parent(k)], a[k]))
    && (i > 0 ==> forall k :: 0 < k < |a| && Parent(k) == i ==> !Less(a[Parent(i)], a[k]))
  }

  lemma RiseOnce<Fn>(a: seq<Job<Fn>>, i: nat)
    requires Rising(a, i) && i > 0 && Less(a[Parent(i)], a[i])
    ensures Rising(Swap(a, Parent(i), i), Parent(i))
  {
  }

  /** A heap but for the job at `i`, which may still have to sink. */
  ghost predicate Sinking<Fn>(a: seq<Job<Fn>>, i: nat) {
    && i < |a|
    && (forall k :: 0 < k < |a| && Parent(k) != i ==> !Less(a[Parent(k)], a[k]))
    && (i > 0 ==> forall k :: 0 < k < |a| && Parent(k) == i ==> !Less(a[Parent(i)], a[k]))
  }

  function GreaterChild<Fn>(a: seq<Job<Fn>>, i: nat): nat
    requires 2 * i + 1 < |a|
  {
    var child := 2 * i + 1;
    if child + 1 < |a| && Less(a[child], a[child + 1]) then child + 1 else child
  }

  lemma SinkOnce<Fn>(a: seq<Job<Fn>>, i: nat)
    requires Sinking(a, i) && 2 * i + 1 < |a| && Less(a[i], a[GreaterChild(a, i)])
    ensures Sinking(Swap(a, i, GreaterChild(a, i)), GreaterChild(a, i))
  {
    var c := GreaterChild(a, i);
    var b := Swap(a, i, c);
    assert Parent(c) == i && b[i] == a[c] && b[c] == a[i];
    forall k | 0 < k < |b| && Parent(k) != c ensures !Less(b[Parent(k)], b[k]) {
      if Parent(k) == i && k != c { assert k == 2 * i + 1 || k == 2 * i + 2; }
    }
    forall k | 0 < k < |b| && Parent(k) == c ensures !Less(b[Parent(c)], b[k]) {
      assert !Less(a[Parent(k)], a[k]);
    }
  }

  lemma Sunk<Fn>(a: seq<Job<Fn>>, i: nat)
    requires Sinking(a, i) && (2 * i + 1 < |a| ==> !Less(a[i], a[GreaterChild(a, i)]))
    ensures Heap(a)
  {
  }

  /** The `std::priority_queue<Job>` of the pool, as a binary heap in one array. */
  class PriorityQueue<Fn> {
    var data: seq<Job<Fn>>

    constructor ()
      ensures data == []
    {
      data := [];
    }

    method Push(job: Job<Fn>)
      requires Heap(data)
      modifies this
      ensures Heap(data)
      ensures multiset(data) == multiset(old(data)) + multiset{job}
    {
      data := data + [job];
      var i: nat := |data| - 1;
      while i > 0 && Less(data[Parent(i)], data[i])
        invariant Rising(data, i)
        invariant multiset(data) == multiset(old(data)) + multiset{job}
      {
        RiseOnce(data, i);
        data := Swap(data, Parent(i), i);
        i := Parent(i);
      }
    }

    /**
     Lines 60 and 61 of thread_pool.cpp: the top job is moved out, which empties its `fn` inside the
     heap, and only then removed. The order reads the priority and the sequence alone.
     */
    method TakeTop() returns (job: Job<Fn>)
      requires Heap(data) && data != []
      modifies this
      ensures Heap(data)
      ensures multiset(old(data)) == multiset(data) + multiset{job}
      ensures forall other :: other in multiset(old(data)) ==>
        job.priority < other.priority || (job.priority == other.priority && job.sequence <= other.sequence)
    {
      forall other | other in multiset(data) ensures !Less(data[0], other) {
        var i :| 0 <= i < |data| && data[i] == other;
        TopIsGreatest(data, i);
      }
      job := data[0];
      assert data == [job] + data[1..];
      data := data[0 := job.(fn := None)];
      assert data[1..] == old(data)[1..];
      RemoveTop();
    }

    /** `pop()`: the last element takes the root's place and sinks. */
    method RemoveTop()
      requires Heap(data) && data != []
      modifies this
      ensures Heap(data)
      ensures multiset(data) == multiset(old(data)[1..])
    {
      var last := |data| - 1;
      if last == 0 {
        data := [];
        return;
      }
      assert data[1..] == data[1..last] + [data[last]];
      data := [data[last]] + data[1..last];
      var i: nat := 0;
      while 2 * i + 1 < |data| && Less(data[i], data[GreaterChild(data, i)])
        invariant Sinking(data, i)
        invariant multiset(data) == multiset(old(data)[1..])
        decreases |data| - i
      {
        SinkOnce(data, i);
        var child := GreaterChild(data, i);
        data := Swap(data, i, child);
        i := child;
      }
      Sunk(data, i);
    }
  }

  // ---------------------------------------------------------------- starting order

  /** By priority, and in submit order within one priority. */
  ghost predicate StartsInOrder<Fn>(started: seq<Job<Fn>>) {
    forall i, k :: 0 <= i < k < |started| ==>
      started[i].priority < started[k].priority
      || (started[i].priority == started[k].priority && started[i].sequence <= started[k].sequence)
  }

  /** No job that was started comes after one that still waits. */
  ghost predicate NoneBelow<Fn>(started: seq<Job<Fn>>, waiting: seq<Job<Fn>>) {
    forall i, k :: 0 <= i < |started| && 0 <= k < |waiting| ==> !Less(started[i], waiting[k])
  }

  lemma TakenNext<Fn>(started: seq<Job<Fn>>, before: seq<Job<Fn>>, job: Job<Fn>, after: seq<Job<Fn>>)
    requires multiset(before) == multiset(after) + multiset{job}
    requires forall other :: other in multiset(before) ==> !Less(job, other)
    requires StartsInOrder(started) && NoneBelow(started, before)
    ensures StartsInOrder(started + [job]) && NoneBelow(started + [job], after)
  {
    assert job in multiset(before);
    var j :| 0 <= j < |before| && before[j] == job;
    forall i, k | 0 <= i < |started| && 0 <= k < |after| ensures !Less(started[i], after[k]) {
      assert after[k] in multiset(after);
      assert after[k] in multiset(before);
      var m :| 0 <= m < |before| && before[m] == after[k];
    }
    forall k | 0 <= k < |after| ensures !Less(job, after[k]) {
      assert after[k] in multiset(after);
      assert after[k] in multiset(before);
    }
  }

  /** Emptying a queue that receives no further job starts each of its jobs once. */
  method Drain<Fn>(queue: PriorityQueue<Fn>) returns (started: seq<Job<Fn>>)
    requires Heap(queue.data)
    modifies queue
    ensures queue.data == []
    ensures multiset(started) == multiset(old(queue.data))
    ensures forall i, k :: 0 <= i < k < |started| ==>
      started[i].priority < started[k].priority
      || (started[i].priority == started[k].priority && started[i].sequence <= started[k].sequence)
  {
    started := [];
    while queue.data != []
      invariant Heap(queue.data)
      invariant multiset(started) + multiset(queue.data) == multiset(old(queue.data))
      invariant StartsInOrder(started)
      invariant NoneBelow(started, queue.data)
      decreases |queue.data|
    {
      ghost var before := queue.data;
      var job := queue.TakeTop();
      assert |multiset(before)| == |multiset(queue.data)| + 1;
      TakenNext(started, before, job, queue.data);
      started := started + [job];
    }
  }
}
