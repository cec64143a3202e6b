/**
 That the pool of module ThreadPool comes to rest: each of its own steps lowers a measure, a new call or a
 spurious wakeup raises it by a bounded amount, and where no own step is left all work is done.
 */
module ThreadPoolProgress {
  import opened ThreadPool
  import opened Wrappers

  // ---------------------------------------------------------------- sums over maps

  ghost function Total<K>(m: map<K, nat>): nat
    decreases |m|
  {
    if m == map[] then 0
    else
      var k :| k in m;
      m[k] + Total(m - {k})
  }

  lemma {:induction false} TotalWithout<K>(m: map<K, nat>, k: K)
    requires k in m
    ensures Total(m) == m[k] + Total(m - {k})
    decreases |m|
  {
    var j :| j in m && Total(m) == m[j] + Total(m - {j});
    if j != k {
      TotalWithout(m - {j}, k);
      TotalWithout(m - {k}, j);
      assert m - {j} - {k} == m - {k} - {j};
    }
  }

  lemma TotalUpdated<K>(m: map<K, nat>, k: K, v: nat)
    requires k in m
    ensures Total(m[k := v]) + m[k] == Total(m) + v
  {
    TotalWithout(m, k);
    TotalWithout(m[k := v], k);
    assert m[k := v] - {k} == m - {k};
  }

  lemma {:induction false} TotalRaised<K>(a: map<K, nat>, b: map<K, nat>)
    requires a.Keys == b.Keys && forall k :: k in a ==> b[k] <= a[k] + 3
    ensures Total(b) <= Total(a) + 3 * |a|
    decreases |a|
  {
    if a == map[] {
      assert b == map[];
    } else {
      var k :| k in a;
      TotalWithout(a, k);
      TotalWithout(b, k);
      TotalRaised(a - {k}, b - {k});
      assert a.Keys == (a - {k}).Keys + {k};
    }
  }

  // ---------------------------------------------------------------- the measure

  /** What is left for a worker to do before it sleeps or exits; `c` bounds the number of `waitIdle` callers. */
  function WorkerWeight(pc: WorkerPc, c: nat): nat {
    match pc
    case Sleeping => 0
    case Exited => 0
    case GoingToSleep => 1
    case Chosen => 1
    case Checking => 2
    case WantLock => 3
    case Notifying => 4 + 3 * c
    case WantNotify => 5 + 3 * c
    case Ran => 6 + 3 * c
    case Running(_) => 7 + 3 * c
    case Counted(_) => 8 + 3 * c
    case Popped(_) => 9 + 3 * c
  }

  /** A waiting job costs the worker that takes it a round of its loop. */
  function JobWeight(c: nat): nat {
    9 + 3 * c
  }

  function QueueWeight(queue: set<Job>, c: nat): nat {
    JobWeight(c) * |queue|
  }

  function SubmitWeight(pc: SubmitPc, c: nat): nat {
    match pc
    case MustNotify => 4
    case Pushing(_, _) => JobWeight(c) + 5
    case Submitting(_, _) => JobWeight(c) + 6
  }

  function WaiterWeight(pc: WaiterPc): nat {
    match pc
    case Returned(_) => 0
    case WaitSleeping => 0
    case WaitGoingToSleep => 1
    case WaitChecking => 2
    case WaitWantLock => 3
  }

  /** `w` is the number of workers, all of which the destructor may wake. */
  function DestroyWeight(pc: DestroyPc, w: nat): nat {
    match pc
    case Joined => 0
    case Joining => 1
    case MustNotifyAll => 2 + 3 * w
    case Stopping => 3 + 3 * w
    case StopWantLock => 4 + 3 * w
    case NotStarted => 5 + 3 * w
  }

  function WorkerWeights(workers: map<nat, WorkerPc>, c: nat): map<nat, nat> {
    map w | w in workers :: WorkerWeight(workers[w], c)
  }

  function SubmitWeights(submits: map<Submitter, SubmitPc>, c: nat): map<Submitter, nat> {
    map who | who in submits :: SubmitWeight(submits[who], c)
  }

  function WaiterWeights(waiters: map<nat, WaiterPc>): map<nat, nat> {
    map c | c in waiters :: WaiterWeight(waiters[c])
  }

  ghost function Measure(s: State, c: nat): nat {
    Total(WorkerWeights(s.workers, c)) + Total(SubmitWeights(s.submits, c)) + Total(WaiterWeights(s.waiters))
    + QueueWeight(s.queue, c) + DestroyWeight(s.destroy, |s.workers|)
  }

  /** The steps of calls that have begun: no new call, neither from outside nor by a job, and no spurious wakeup. */
  ghost predicate Own(s: State, a: Action) {
    a.WorkerStep? || a.SubmitStep? || a.NotifyOne? || a.WaitStep? || (a.DestroyStep? && !s.destroy.NotStarted?)
  }

  lemma SameSize<K, V>(m: map<K, V>, k: K, v: V)
    requires k in m
    ensures |m[k := v]| == |m|
  {
    assert m[k := v].Keys == m.Keys;
  }

  lemma WorkerUpdated(workers: map<nat, WorkerPc>, w: nat, pc: WorkerPc, c: nat)
    requires w in workers
    ensures Total(WorkerWeights(workers[w := pc], c)) + WorkerWeight(workers[w], c)
         == Total(WorkerWeights(workers, c)) + WorkerWeight(pc, c)
    ensures |workers[w := pc]| == |workers|
  {
    SameSize(workers, w, pc);
    TotalUpdated(WorkerWeights(workers, c), w, WorkerWeight(pc, c));
    assert WorkerWeights(workers[w := pc], c) == WorkerWeights(workers, c)[w := WorkerWeight(pc, c)];
  }

  lemma SubmitUpdated(submits: map<Submitter, SubmitPc>, who: Submitter, pc: SubmitPc, c: nat)
    requires who in submits
    ensures Total(SubmitWeights(submits[who := pc], c)) + SubmitWeight(submits[who], c)
         == Total(SubmitWeights(submits, c)) + SubmitWeight(pc, c)
    ensures Total(SubmitWeights(submits, c)) == SubmitWeight(submits[who], c) + Total(SubmitWeights(submits - {who}, c))
  {
    TotalUpdated(SubmitWeights(submits, c), who, SubmitWeight(pc, c));
    assert SubmitWeights(submits[who := pc], c) == SubmitWeights(submits, c)[who := SubmitWeight(pc, c)];
    TotalWithout(SubmitWeights(submits, c), who);
    assert SubmitWeights(submits - {who}, c) == SubmitWeights(submits, c) - {who};
  }

  lemma WaiterUpdated(waiters: map<nat, WaiterPc>, k: nat, pc: WaiterPc)
    requires k in waiters
    ensures Total(WaiterWeights(waiters[k := pc])) + WaiterWeight(waiters[k])
         == Total(WaiterWeights(waiters)) + WaiterWeight(pc)
    ensures |waiters[k := pc]| == |waiters|
  {
    SameSize(waiters, k, pc);
    TotalUpdated(WaiterWeights(waiters), k, WaiterWeight(pc));
    assert WaiterWeights(waiters[k := pc]) == WaiterWeights(waiters)[k := WaiterWeight(pc)];
  }

  lemma WaitersWoken(waiters: map<nat, WaiterPc>)
    ensures Total(WaiterWeights(WakeWaiters(waiters))) <= Total(WaiterWeights(waiters)) + 3 * |waiters|
    ensures |WakeWaiters(waiters)| == |waiters|
  {
    assert WakeWaiters(waiters).Keys == waiters.Keys;
    TotalRaised(WaiterWeights(waiters), WaiterWeights(WakeWaiters(waiters)));
    assert WaiterWeights(waiters).Keys == waiters.Keys;
  }

  lemma WorkersWoken(workers: map<nat, WorkerPc>, c: nat)
    ensures Total(WorkerWeights(WakeWorkers(workers), c)) <= Total(WorkerWeights(workers, c)) + 3 * |workers|
    ensures |WakeWorkers(workers)| == |workers|
  {
    assert WakeWorkers(workers).Keys == workers.Keys;
    TotalRaised(WorkerWeights(workers, c), WorkerWeights(WakeWorkers(workers), c));
    assert WorkerWeights(workers, c).Keys == workers.Keys;
  }

  lemma QueueWithout(queue: set<Job>, j: Job, c: nat)
    requires j in queue
    ensures QueueWeight(queue - {j}, c) + JobWeight(c) == QueueWeight(queue, c)
  {
    assert |queue - {j}| == |queue| - 1;
    hide JobWeight;
    Times(JobWeight(c), |queue| - 1);
  }

  lemma QueueWith(queue: set<Job>, j: Job, c: nat)
    ensures QueueWeight(queue + {j}, c) <= QueueWeight(queue, c) + JobWeight(c)
  {
    hide JobWeight;
    if j in queue {
      assert queue + {j} == queue;
    } else {
      assert |queue + {j}| == |queue| + 1;
      Times(JobWeight(c), |queue|);
    }
  }

  lemma Times(a: nat, b: nat)
    ensures a * (b + 1) == a * b + a
  {
  }

  // ---------------------------------------------------------------- every own step lowers it

  lemma TakingAJobLowers(s: State, w: nat, s': State, c: nat)
    requires Step(s, WorkerStep(w)) == Some(s') && w in s.workers && s.workers[w].Chosen? && s.queue != {}
    ensures Measure(s', c) < Measure(s, c)
  {
    var a := WorkerStep(w);
    WorkersEffect(s, a, s');
    LogEffect(s, a, s');
    SubmitsEffect(s, a, s');
    WaitersEffect(s, a, s');
    DestroyEffect(s, a, s');
    hide Step, StepWorker, Top;
    var job := Top(s.queue);
    hide IsTop, Total, WorkerWeights, SubmitWeights, WaiterWeights, QueueWeight, DestroyWeight, WakeWaiters;
    WorkerUpdated(s.workers, w, Popped(job), c);
    QueueWithout(s.queue, job, c);
  }

  lemma NotifyingLowers(s: State, w: nat, s': State, c: nat)
    requires |s.waiters| <= c
    requires Step(s, WorkerStep(w)) == Some(s') && w in s.workers && s.workers[w].Notifying?
    ensures Measure(s', c) < Measure(s, c)
  {
    hide IsTop, Total, WorkerWeights, SubmitWeights, WaiterWeights, QueueWeight, DestroyWeight, WakeWaiters;
    WorkerUpdated(s.workers, w, WantLock, c);
    WaitersWoken(s.waiters);
  }

  lemma WeightDrops(from: WorkerPc, to: WorkerPc, c: nat)
    requires MayMove(from, to) && !from.Sleeping? && !from.Notifying? && !(from.Chosen? && to.Popped?)
    ensures WorkerWeight(to, c) < WorkerWeight(from, c)
  {
  }

  lemma OtherStepsLower(s: State, w: nat, s': State, c: nat)
    requires Step(s, WorkerStep(w)) == Some(s') && w in s.workers
    requires !s.workers[w].Notifying? && !(s.workers[w].Chosen? && s.queue != {})
    ensures Measure(s', c) < Measure(s, c)
  {
    var a := WorkerStep(w);
    assert !s.workers[w].Sleeping?;
    hide Step, StepWorker, Top, IsTop;
    WorkersEffect(s, a, s');
    LogEffect(s, a, s');
    SubmitsEffect(s, a, s');
    WaitersEffect(s, a, s');
    DestroyEffect(s, a, s');
    hide Total, WorkerWeights, SubmitWeights, WaiterWeights, QueueWeight, DestroyWeight, WakeWaiters, WorkerWeight;
    WeightDrops(s.workers[w], s'.workers[w], c);
    hide MayMove;
    WorkerUpdated(s.workers, w, s'.workers[w], c);
  }

  lemma WorkerStepLowers(s: State, w: nat, s': State, c: nat)
    requires Step(s, WorkerStep(w)) == Some(s') && |s.waiters| <= c
    ensures Measure(s', c) < Measure(s, c)
  {
    hide StepWorker, Measure;
    if s.workers[w].Chosen? && s.queue != {} {
      TakingAJobLowers(s, w, s', c);
    } else if s.workers[w].Notifying? {
      NotifyingLowers(s, w, s', c);
    } else {
      OtherStepsLower(s, w, s', c);
    }
  }

  lemma SubmitStepLowers(s: State, who: Submitter, s': State, c: nat)
    requires Step(s, SubmitStep(who)) == Some(s')
    ensures Measure(s', c) < Measure(s, c)
  {
    var a := SubmitStep(who);
    WorkersEffect(s, a, s');
    LogEffect(s, a, s');
    SubmitsEffect(s, a, s');
    WaitersEffect(s, a, s');
    DestroyEffect(s, a, s');
    hide Step, Total, WorkerWeights, SubmitWeights, WaiterWeights, QueueWeight, DestroyWeight;
    SubmitUpdated(s.submits, who, s'.submits[who], c);
    if s.submits[who].Pushing? {
      QueueWith(s.queue, NewJob(s, who), c);
    }
  }

  lemma NotifyOneLowers(s: State, who: Submitter, wakes: Option<nat>, s': State, c: nat)
    requires Step(s, NotifyOne(who, wakes)) == Some(s')
    ensures Measure(s', c) < Measure(s, c)
  {
    var a := NotifyOne(who, wakes);
    WorkersEffect(s, a, s');
    LogEffect(s, a, s');
    SubmitsEffect(s, a, s');
    WaitersEffect(s, a, s');
    DestroyEffect(s, a, s');
    hide Step, Total, WorkerWeights, SubmitWeights, WaiterWeights, QueueWeight, DestroyWeight;
    SubmitUpdated(s.submits, who, MustNotify, c);
    if wakes.Some? {
      WorkerUpdated(s.workers, wakes.value, s'.workers[wakes.value], c);
    }
  }

  lemma WaitStepLowers(s: State, k: nat, s': State, c: nat)
    requires Step(s, WaitStep(k)) == Some(s')
    ensures Measure(s', c) < Measure(s, c)
  {
    var a := WaitStep(k);
    WorkersEffect(s, a, s');
    LogEffect(s, a, s');
    SubmitsEffect(s, a, s');
    WaitersEffect(s, a, s');
    DestroyEffect(s, a, s');
    hide Step, Total, WorkerWeights, SubmitWeights, WaiterWeights, QueueWeight, DestroyWeight;
    WaiterUpdated(s.waiters, k, s'.waiters[k]);
  }

  lemma DestroyStepLowers(s: State, s': State, c: nat)
    requires Step(s, DestroyStep) == Some(s')
    ensures Measure(s', c) < Measure(s, c)
  {
    WorkersEffect(s, DestroyStep, s');
    LogEffect(s, DestroyStep, s');
    SubmitsEffect(s, DestroyStep, s');
    WaitersEffect(s, DestroyStep, s');
    DestroyEffect(s, DestroyStep, s');
    hide Step, Total, WorkerWeights, SubmitWeights, WaiterWeights, QueueWeight, WakeWorkers;
    WorkersWoken(s.workers, c);
  }

  lemma OwnStepLowers(s: State, a: Action, s': State, c: nat)
    requires (Own(s, a) || a.DestroyStep?) && Step(s, a) == Some(s') && |s.waiters| <= c
    ensures Measure(s', c) < Measure(s, c)
  {
    hide Step, Measure;
    match a
    case WorkerStep(w) => WorkerStepLowers(s, w, s', c);
    case SubmitStep(who) => SubmitStepLowers(s, who, s', c);
    case NotifyOne(who, wakes) => NotifyOneLowers(s, who, wakes, s', c);
    case WaitStep(k) => WaitStepLowers(s, k, s', c);
    case DestroyStep => DestroyStepLowers(s, s', c);
  }

  // ---------------------------------------------------------------- every other step raises it by so much at most

  /** What a new call or a spurious wakeup may cost, its own step included. */
  function Allowance(a: Action, c: nat): nat {
    match a
    case BeginSubmit(_, _, _) => JobWeight(c) + 7
    case BeginWait(_) => 4
    case WorkerSpuriousWake(_) => 4
    case WaitSpuriousWake(_) => 4
    case _ => 0
  }

  lemma TotalWith<K>(m: map<K, nat>, k: K, v: nat)
    requires k !in m
    ensures Total(m[k := v]) == Total(m) + v
  {
    TotalWithout(m[k := v], k);
    assert m[k := v] - {k} == m;
  }

  lemma BeginSubmitRaises(s: State, a: Action, s': State, c: nat)
    requires a.BeginSubmit? && Step(s, a) == Some(s')
    ensures Measure(s', c) + 1 == Measure(s, c) + Allowance(a, c)
  {
    var pc := Submitting(a.priority, a.task);
    hide Total, WorkerWeights, WaiterWeights, QueueWeight, DestroyWeight, JobWeight;
    TotalWith(SubmitWeights(s.submits, c), a.who, SubmitWeight(pc, c));
    assert SubmitWeights(s'.submits, c) == SubmitWeights(s.submits, c)[a.who := SubmitWeight(pc, c)];
  }

  lemma BeginWaitRaises(s: State, a: Action, s': State, c: nat)
    requires a.BeginWait? && Step(s, a) == Some(s')
    ensures Measure(s', c) + 1 == Measure(s, c) + Allowance(a, c)
  {
    hide Total, WorkerWeights, SubmitWeights, QueueWeight, DestroyWeight;
    TotalWith(WaiterWeights(s.waiters), a.c, WaiterWeight(WaitWantLock));
    assert WaiterWeights(s'.waiters) == WaiterWeights(s.waiters)[a.c := WaiterWeight(WaitWantLock)];
  }

  lemma SpuriousWakeRaises(s: State, a: Action, s': State, c: nat)
    requires (a.WorkerSpuriousWake? || a.WaitSpuriousWake?) && Step(s, a) == Some(s')
    ensures Measure(s', c) + 1 == Measure(s, c) + Allowance(a, c)
  {
    hide Total, WorkerWeights, SubmitWeights, WaiterWeights, QueueWeight, DestroyWeight;
    if a.WorkerSpuriousWake? {
      WorkerUpdated(s.workers, a.w, WantLock, c);
    } else {
      WaiterUpdated(s.waiters, a.c, WaitWantLock);
    }
  }

  /** Whatever the step, it is paid for: by the measure, or by the allowance of a call or a spurious wakeup. */
  lemma EveryStepIsPaid(s: State, a: Action, s': State, c: nat)
    requires Step(s, a) == Some(s') && |s.waiters| <= c
    ensures Measure(s', c) + 1 <= Measure(s, c) + Allowance(a, c)
  {
    hide Step, Measure, JobWeight;
    match a
    case BeginSubmit(_, _, _) => BeginSubmitRaises(s, a, s', c);
    case BeginWait(_) => BeginWaitRaises(s, a, s', c);
    case WorkerSpuriousWake(_) => SpuriousWakeRaises(s, a, s', c);
    case WaitSpuriousWake(_) => SpuriousWakeRaises(s, a, s', c);
    case _ => OwnStepLowers(s, a, s', c);
  }

  lemma WaitersStay(s: State, a: Action, s': State)
    requires Step(s, a) == Some(s')
    ensures |s.waiters| <= |s'.waiters|
  {
    WaitersEffect(s, a, s');
    hide Step;
    match a
    case WorkerStep(_) => WaitersWoken(s.waiters);
    case WaitStep(k) => SameSize(s.waiters, k, s'.waiters[k]);
    case WaitSpuriousWake(k) => SameSize(s.waiters, k, WaitWantLock);
    case BeginWait(k) => assert s'.waiters.Keys == s.waiters.Keys + {k};
    case _ =>
  }

  // ---------------------------------------------------------------- runs

  /** `t` is reached from `s` by these steps, calls and spurious wakeups among them. */
  ghost predicate Runs(s: State, actions: seq<Action>, t: State)
    decreases |actions|
  {
    if actions == [] then s == t
    else Step(s, actions[0]).Some? && Runs(Step(s, actions[0]).value, actions[1..], t)
  }

  function Allowances(actions: seq<Action>, c: nat): nat {
    if actions == [] then 0 else Allowance(actions[0], c) + Allowances(actions[1..], c)
  }

  lemma {:induction false} RunKeepsInv(s: State, actions: seq<Action>, t: State)
    requires Inv(s) && Runs(s, actions, t)
    ensures Inv(t) && |s.waiters| <= |t.waiters|
    decreases |actions|
  {
    if actions != [] {
      var next := Step(s, actions[0]).value;
      StepKeepsInv(s, actions[0], next);
      WaitersStay(s, actions[0], next);
      hide Inv, Step;
      RunKeepsInv(next, actions[1..], t);
    }
  }

  lemma {:induction false} RunIsPaid(s: State, actions: seq<Action>, t: State)
    requires Inv(s) && Runs(s, actions, t)
    ensures |actions| + Measure(t, |t.waiters|) <= Measure(s, |t.waiters|) + Allowances(actions, |t.waiters|)
    decreases |actions|
  {
    if actions != [] {
      var next := Step(s, actions[0]).value;
      RunKeepsInv(s, actions, t);
      EveryStepIsPaid(s, actions[0], next, |t.waiters|);
      StepKeepsInv(s, actions[0], next);
      hide Inv, Measure, Step, Allowance;
      RunIsPaid(next, actions[1..], t);
    }
  }

  ghost predicate HasOwnStep(s: State) {
    exists a :: Own(s, a) && Step(s, a).Some?
  }

  lemma ProgressIsOwn(s: State)
    requires CanProgress(s)
    ensures HasOwnStep(s)
  {
    hide Step;
    if w :| Step(s, WorkerStep(w)).Some? {
      assert Own(s, WorkerStep(w));
    } else if who :| Step(s, SubmitStep(who)).Some? {
      assert Own(s, SubmitStep(who));
    } else if who, wakes :| Step(s, NotifyOne(who, wakes)).Some? {
      assert Own(s, NotifyOne(who, wakes));
    } else if c :| Step(s, WaitStep(c)).Some? {
      assert Own(s, WaitStep(c));
    } else {
      assert Own(s, DestroyStep);
    }
  }

  /**
   The pool finishes: whatever steps are taken and in whatever order, calls by clients and by running jobs and
   spurious wakeups included, there are at most so many for what was there at the start and for each call and
   wakeup; and when no step of its own is possible all jobs have run and every caller has returned.
   */
  lemma EveryRunFinishes(s: State, actions: seq<Action>, t: State)
    requires Reachable(s) && Runs(s, actions, t)
    ensures |actions| <= Measure(s, |t.waiters|) + Allowances(actions, |t.waiters|)
    ensures HasOwnStep(t) || Done(t)
  {
    ReachableIsGood(s);
    RunIsPaid(s, actions, t);
    RunKeepsInv(s, actions, t);
    GoodIsNeverStuck(t);
    hide Inv, Measure, Done, Reachable, Runs, Allowances;
    if CanProgress(t) {
      ProgressIsOwn(t);
    }
  }
}
