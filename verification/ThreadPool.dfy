/**
 The thread pool of src/core/util/thread_pool.cpp as a system of interleaved steps.

 Every thread is a program counter: the workers, the calls of `submit` (by a client, or by a job
 running inside a worker), the callers of `waitIdle`, and the destructor. A step holds the mutex, or
 takes or releases it, or touches one atomic. Sleeping threads are woken by the notifications the
 code sends, and also spuriously, as the standard allows.
 */
module ThreadPool {
  import opened Sequences
  import opened Wrappers
  import JobQueue

  type Task = nat
  type Job = JobQueue.Job<Task>

  datatype WorkerPc =
    | WantLock                 // at the top of the loop, or woken inside wait
    | Checking                 // holds the mutex, evaluates the predicate of wait
    | GoingToSleep             // holds the mutex, found the predicate false
    | Sleeping
    | Chosen                   // holds the mutex, found the predicate true
    | Popped(job: Job)         // holds the mutex, before fetch_add
    | Counted(job: Job)        // holds the mutex, after fetch_add
    | Running(job: Job)
    | Ran                      // before fetch_sub
    | WantNotify               // fetch_sub returned 1
    | Notifying                // holds the mutex
    | Exited

  datatype SubmitPc =
    | Submitting(priority: JobQueue.Priority, task: Task)
    | Pushing(priority: JobQueue.Priority, task: Task)
    | MustNotify

  datatype Submitter = Client(id: nat) | Inside(worker: nat)

  datatype WaiterPc = WaitWantLock | WaitChecking | WaitGoingToSleep | WaitSleeping | Returned(seen: seq<Job>)

  datatype DestroyPc = NotStarted | StopWantLock | Stopping | MustNotifyAll | Joining | Joined

  datatype Agent = Worker(w: nat) | Submit(who: Submitter) | Waiter(c: nat) | Destroyer

  /** `pushed`, `started` and `finished` only record: no step reads them. */
  datatype State = State(
    workers: map<nat, WorkerPc>,
    submits: map<Submitter, SubmitPc>,
    waiters: map<nat, WaiterPc>,
    destroy: DestroyPc,
    lock: Option<Agent>,
    queue: set<Job>,
    active: int,
    stop: bool,
    nextSequence: nat,
    pushed: seq<Job>,
    started: seq<Job>,
    finished: seq<Job>)

  datatype Action =
    | WorkerStep(w: nat)
    | WorkerSpuriousWake(w: nat)
    | BeginSubmit(who: Submitter, priority: JobQueue.Priority, task: Task)
    | SubmitStep(who: Submitter)
    | NotifyOne(who: Submitter, wakes: Option<nat>)
    | BeginWait(c: nat)
    | WaitStep(c: nat)
    | WaitSpuriousWake(c: nat)
    | DestroyStep

  ghost predicate Start(s: State) {
    && s.workers.Keys != {} && (forall w :: w in s.workers ==> s.workers[w] == WantLock)
    && s.submits == map[] && s.waiters == map[] && s.destroy == NotStarted && s.lock == None
    && s.queue == {} && s.active == 0 && !s.stop && s.nextSequence == 0
    && s.pushed == [] && s.started == [] && s.finished == []
  }

  // ---------------------------------------------------------------- the queue

  ghost predicate IsTop(queue: set<Job>, j: Job) {
    j in queue && forall k :: k in queue ==> !JobQueue.Less(j, k)
  }

  lemma TopExists(queue: set<Job>)
    requires queue != {}
    ensures exists j :: IsTop(queue, j)
  {
    var j :| j in queue;
    var rest := queue - {j};
    if rest == {} {
      assert queue == {j};
      assert IsTop(queue, j);
    } else {
      TopExists(rest);
      var top :| IsTop(rest, top);
      var best := if JobQueue.Less(top, j) then j else top;
      forall k | k in queue ensures !JobQueue.Less(best, k) {
        assert k == j || k in rest;
        JobQueue.LessIsAStrictOrder(top, j, k);
        JobQueue.LessIsAStrictOrder(best, k, k);
      }
      assert IsTop(queue, best);
    }
  }

  /** What `queue.top()` is; the array heap of module JobQueue returns such a job. */
  ghost function Top(queue: set<Job>): (j: Job)
    requires queue != {}
    ensures IsTop(queue, j)
  {
    TopExists(queue);
    var j :| IsTop(queue, j);
    j
  }

  /** With distinct sequence numbers there is only one such job, and it is at the root of the array heap. */
  lemma HeapRootIsTop(data: seq<Job>, queue: set<Job>)
    requires JobQueue.Heap(data) && data != [] && queue == set j | j in data
    requires forall i, k :: 0 <= i < k < |data| ==> data[i].sequence != data[k].sequence
    ensures data[0] in queue && Top(queue) == data[0]
  {
    forall k | k in queue ensures !JobQueue.Less(data[0], k) {
      var i :| 0 <= i < |data| && data[i] == k;
      JobQueue.TopIsGreatest(data, i);
    }
    assert data[0] in queue;
    var top := Top(queue);
    var i :| 0 <= i < |data| && data[i] == top;
    JobQueue.LessIsAStrictOrder(top, data[0], top);
  }

  // ---------------------------------------------------------------- the steps

  ghost function SetWorker(s: State, w: nat, pc: WorkerPc): State {
    s.(workers := s.workers[w := pc])
  }

  ghost function StepWorker(s: State, w: nat): Option<State>
    requires w in s.workers
  {
    match s.workers[w]
    case WantLock =>
      if s.lock == None then Some(SetWorker(s, w, Checking).(lock := Some(Worker(w)))) else None
    case Checking =>
      Some(SetWorker(s, w, if s.stop || s.queue != {} then Chosen else GoingToSleep))
    case GoingToSleep =>
      Some(SetWorker(s, w, Sleeping).(lock := None))
    case Sleeping => None
    case Chosen =>
      if s.stop && s.queue == {} then Some(SetWorker(s, w, Exited).(lock := None))
      else if s.queue == {} then None
      else
        var job := Top(s.queue);
        Some(SetWorker(s, w, Popped(job)).(queue := s.queue - {job}, started := s.started + [job]))
    case Popped(job) => Some(SetWorker(s, w, Counted(job)).(active := s.active + 1))
    case Counted(job) => Some(SetWorker(s, w, Running(job)).(lock := None))
    case Running(job) =>
      if Inside(w) in s.submits then None
      else Some(SetWorker(s, w, Ran).(finished := s.finished + [job]))
    case Ran =>
      Some(SetWorker(s, w, if s.active == 1 then WantNotify else WantLock).(active := s.active - 1))
    case WantNotify =>
      if s.lock == None then Some(SetWorker(s, w, Notifying).(lock := Some(Worker(w)))) else None
    case Notifying =>
      var s' := SetWorker(s, w, WantLock).(lock := None);
      Some(if s.queue == {} then s'.(waiters := WakeWaiters(s.waiters)) else s')
    case Exited => None
  }

  function WakeWaiters(waiters: map<nat, WaiterPc>): map<nat, WaiterPc> {
    map c | c in waiters :: if waiters[c].WaitSleeping? then WaitWantLock else waiters[c]
  }

  function WakeWorkers(workers: map<nat, WorkerPc>): map<nat, WorkerPc> {
    map w | w in workers :: if workers[w].Sleeping? then WantLock else workers[w]
  }

  ghost predicate MayBeginSubmit(s: State, who: Submitter) {
    && who !in s.submits
    && match who
       case Client(_) => s.destroy.NotStarted?
       case Inside(w) => w in s.workers && s.workers[w].Running?
  }

  function StepSubmit(s: State, who: Submitter): Option<State>
    requires who in s.submits
  {
    match s.submits[who]
    case Submitting(priority, task) =>
      if s.lock == None
      then Some(s.(submits := s.submits[who := Pushing(priority, task)], lock := Some(Submit(who)))) else None
    case Pushing(priority, task) =>
      var job := JobQueue.Job(priority, s.nextSequence, Some(task));
      Some(s.(submits := s.submits[who := MustNotify], lock := None, queue := s.queue + {job},
              nextSequence := s.nextSequence + 1, pushed := s.pushed + [job]))
    case MustNotify => None
  }

  /** `notify_one`: wakes one sleeping worker when there is one. */
  ghost function StepNotifyOne(s: State, who: Submitter, wakes: Option<nat>): Option<State>
    requires who in s.submits
  {
    if !s.submits[who].MustNotify? then None
    else match wakes {
      case None =>
        if exists w :: w in s.workers && s.workers[w].Sleeping? then None
        else Some(s.(submits := s.submits - {who}))
      case Some(w) =>
        if w in s.workers && s.workers[w].Sleeping?
        then Some(SetWorker(s, w, WantLock).(submits := s.submits - {who})) else None
    }
  }

  function StepWaiter(s: State, c: nat): Option<State>
    requires c in s.waiters
  {
    match s.waiters[c]
    case WaitWantLock =>
      if s.lock == None
      then Some(s.(waiters := s.waiters[c := WaitChecking], lock := Some(Waiter(c)))) else None
    case WaitChecking =>
      if s.queue == {} && s.active == 0
      then Some(s.(waiters := s.waiters[c := Returned(s.pushed)], lock := None))
      else Some(s.(waiters := s.waiters[c := WaitGoingToSleep]))
    case WaitGoingToSleep => Some(s.(waiters := s.waiters[c := WaitSleeping], lock := None))
    case WaitSleeping => None
    case Returned(_) => None
  }

  /** The caller may destroy the pool only when no client call on it is in progress. */
  ghost predicate MayDestroy(s: State) {
    && (forall who :: who in s.submits ==> who.Inside?)
    && (forall c :: c in s.waiters ==> s.waiters[c].Returned?)
  }

  ghost function StepDestroy(s: State): Option<State> {
    match s.destroy
    case NotStarted => if MayDestroy(s) then Some(s.(destroy := StopWantLock)) else None
    case StopWantLock =>
      if s.lock == None then Some(s.(destroy := Stopping, lock := Some(Destroyer))) else None
    case Stopping => Some(s.(destroy := MustNotifyAll, stop := true, lock := None))
    case MustNotifyAll => Some(s.(destroy := Joining, workers := WakeWorkers(s.workers)))
    case Joining => if forall w :: w in s.workers ==> s.workers[w].Exited? then Some(s.(destroy := Joined)) else None
    case Joined => None
  }

  ghost function Step(s: State, a: Action): Option<State> {
    match a
    case WorkerStep(w) => if w in s.workers then StepWorker(s, w) else None
    case WorkerSpuriousWake(w) =>
      if w in s.workers && s.workers[w].Sleeping? then Some(SetWorker(s, w, WantLock)) else None
    case BeginSubmit(who, priority, task) =>
      if MayBeginSubmit(s, who) then Some(s.(submits := s.submits[who := Submitting(priority, task)])) else None
    case SubmitStep(who) => if who in s.submits then StepSubmit(s, who) else None
    case NotifyOne(who, wakes) => if who in s.submits then StepNotifyOne(s, who, wakes) else None
    case BeginWait(c) =>
      if c !in s.waiters && s.destroy.NotStarted? then Some(s.(waiters := s.waiters[c := WaitWantLock])) else None
    case WaitStep(c) => if c in s.waiters then StepWaiter(s, c) else None
    case WaitSpuriousWake(c) =>
      if c in s.waiters && s.waiters[c].WaitSleeping? then Some(s.(waiters := s.waiters[c := WaitWantLock])) else None
    case DestroyStep => StepDestroy(s)
  }

  // ---------------------------------------------------------------- the invariant

  ghost predicate Holds(s: State, a: Agent) {
    match a
    case Worker(w) =>
      w in s.workers && (var pc := s.workers[w];
        pc.Checking? || pc.GoingToSleep? || pc.Chosen? || pc.Popped? || pc.Counted? || pc.Notifying?)
    case Submit(who) => who in s.submits && s.submits[who].Pushing?
    case Waiter(c) => c in s.waiters && (s.waiters[c].WaitChecking? || s.waiters[c].WaitGoingToSleep?)
    case Destroyer => s.destroy.Stopping?
  }

  /** The mutex excludes: exactly its owner is inside a critical section. */
  ghost predicate LockOk(s: State) {
    forall a :: Holds(s, a) <==> s.lock == Some(a)
  }

  predicate IsCounted(pc: WorkerPc) {
    pc.Counted? || pc.Running? || pc.Ran?
  }

  function CountedWorkers(s: State): set<nat> {
    set w | w in s.workers && IsCounted(s.workers[w])
  }

  ghost predicate CountOk(s: State) {
    s.active == |CountedWorkers(s)|
  }

  predicate HasJob(pc: WorkerPc) {
    pc.Popped? || pc.Counted? || pc.Running?
  }

  ghost predicate HeldBy(s: State, w: nat, j: Job) {
    w in s.workers && HasJob(s.workers[w]) && s.workers[w].job == j
  }

  /** The sequence numbers are the submit order. */
  ghost predicate PushedOk(s: State) {
    s.nextSequence == |s.pushed| && forall i :: 0 <= i < |s.pushed| ==> s.pushed[i].sequence == i
  }

  /** Every job pushed waits in the queue, or has been started; once. */
  ghost predicate StartedOk(s: State) {
    && (forall j :: j in s.pushed <==> j in s.queue || j in s.started)
    && (forall j :: j in s.queue ==> j !in s.started)
    && Distinct(s.started)
  }

  /** Every job started is held by one worker, or has finished; once. */
  ghost predicate FinishedOk(s: State) {
    && (forall j :: j in s.started <==> j in s.finished || exists w :: HeldBy(s, w, j))
    && (forall w, j :: HeldBy(s, w, j) ==> j !in s.finished)
    && (forall v, w, j :: HeldBy(s, v, j) && HeldBy(s, w, j) ==> v == w)
    && Distinct(s.finished)
  }

  /** Jobs of one priority start in submit order. */
  ghost predicate OrderOk(s: State) {
    && (forall i, k :: 0 <= i < k < |s.started| && s.started[i].priority == s.started[k].priority
          ==> s.started[i].sequence < s.started[k].sequence)
    && (forall i, j :: 0 <= i < |s.started| && j in s.queue && s.started[i].priority == j.priority
          ==> s.started[i].sequence < j.sequence)
  }

  predicate Contends(pc: WorkerPc) {
    pc.WantLock? || pc.Checking? || pc.GoingToSleep? || pc.Chosen?
  }

  function Contenders(s: State): set<nat> {
    set w | w in s.workers && Contends(s.workers[w])
  }

  function Notifiers(s: State): set<Submitter> {
    set who | who in s.submits && s.submits[who].MustNotify?
  }

  ghost predicate SomeSleeper(s: State) {
    exists w :: w in s.workers && s.workers[w].Sleeping?
  }

  /** While a worker sleeps, every waiting job has its own awake worker or `notify_one` on the way. */
  ghost predicate WakeOk(s: State) {
    SomeSleeper(s) ==> |s.queue| <= |Contenders(s)| + |Notifiers(s)|
  }

  ghost predicate StopOk(s: State) {
    && (s.stop <==> s.destroy.MustNotifyAll? || s.destroy.Joining? || s.destroy.Joined?)
    && (forall w :: w in s.workers ==>
          && (s.workers[w].Exited? ==> s.stop)
          && (s.workers[w].GoingToSleep? ==> !s.stop && s.queue == {})
          && (s.workers[w].Chosen? ==> s.stop || s.queue != {})
          && (s.workers[w].Sleeping? ==> !s.destroy.Joining? && !s.destroy.Joined?)
          && (s.destroy.Joined? ==> s.workers[w].Exited?))
    && (forall who :: who in s.submits ==>
          match who
          case Client(_) => s.destroy.NotStarted?
          case Inside(w) => w in s.workers && s.workers[w].Running?)
    && (forall c :: c in s.waiters && !s.waiters[c].Returned? ==> s.destroy.NotStarted?)
  }

  /** A job never waits in a pool whose workers have all left. */
  ghost predicate DrainOk(s: State) {
    && s.workers.Keys != {}
    && (s.queue != {} ==> exists w :: w in s.workers && !s.workers[w].Exited?)
  }

  ghost predicate NothingOutstanding(s: State) {
    s.queue == {} && forall w :: w in s.workers ==> !s.workers[w].Popped? && !IsCounted(s.workers[w])
  }

  ghost predicate IdleNotifierOnTheWay(s: State) {
    exists w :: w in s.workers && (s.workers[w].WantNotify? || s.workers[w].Notifying?)
  }

  ghost predicate SomeIdleSleeper(s: State) {
    exists c :: c in s.waiters && (s.waiters[c].WaitSleeping? || s.waiters[c].WaitGoingToSleep?)
  }

  ghost predicate IdleOk(s: State) {
    SomeIdleSleeper(s) && NothingOutstanding(s) ==> IdleNotifierOnTheWay(s)
  }

  /** What a returned `waitIdle` saw pushed has finished. */
  ghost predicate ReturnedOk(s: State) {
    forall c, j :: c in s.waiters && s.waiters[c].Returned? && j in s.waiters[c].seen ==> j in s.finished
  }

  ghost predicate Inv(s: State) {
    && LockOk(s) && CountOk(s) && PushedOk(s) && StartedOk(s) && FinishedOk(s) && OrderOk(s)
    && WakeOk(s) && StopOk(s) && DrainOk(s) && IdleOk(s) && ReturnedOk(s)
  }

  // ---------------------------------------------------------------- what one step can change

  function Mover(a: Action): Option<nat> {
    match a
    case WorkerStep(w) => Some(w)
    case WorkerSpuriousWake(w) => Some(w)
    case NotifyOne(_, wakes) => wakes
    case _ => None
  }

  function Actor(a: Action): Agent {
    match a
    case WorkerStep(w) => Worker(w)
    case WorkerSpuriousWake(w) => Worker(w)
    case BeginSubmit(who, _, _) => Submit(who)
    case SubmitStep(who) => Submit(who)
    case NotifyOne(who, _) => Submit(who)
    case BeginWait(c) => Waiter(c)
    case WaitStep(c) => Waiter(c)
    case WaitSpuriousWake(c) => Waiter(c)
    case DestroyStep => Destroyer
  }

  ghost predicate MayMove(from: WorkerPc, to: WorkerPc) {
    match from
    case WantLock => to.Checking?
    case Checking => to.Chosen? || to.GoingToSleep?
    case GoingToSleep => to.Sleeping?
    case Sleeping => to.WantLock?
    case Chosen => to.Exited? || to.Popped?
    case Popped(job) => to == Counted(job)
    case Counted(job) => to == Running(job)
    case Running(_) => to.Ran?
    case Ran => to.WantNotify? || to.WantLock?
    case WantNotify => to.Notifying?
    case Notifying => to.WantLock?
    case Exited => false
  }

  lemma OneWorkerMoves(s: State, w: nat, s': State)
    requires w in s.workers && StepWorker(s, w) == Some(s')
    ensures w in s'.workers && s'.workers == s.workers[w := s'.workers[w]] && MayMove(s.workers[w], s'.workers[w])
    ensures s'.active == s.active + if s.workers[w].Popped? then 1 else if s.workers[w].Ran? then -1 else 0
  {
    hide IsTop;
    match s.workers[w]
    case Chosen =>
    case Notifying =>
    case _ =>
  }

  lemma WorkersEffect(s: State, a: Action, s': State)
    requires Step(s, a) == Some(s')
    ensures match Mover(a) {
      case Some(w) =>
        && w in s.workers && w in s'.workers && s'.workers == s.workers[w := s'.workers[w]]
        && MayMove(s.workers[w], s'.workers[w]) && (!a.WorkerStep? ==> s.workers[w].Sleeping?)
      case None =>
        s'.workers == if a.DestroyStep? && s.destroy.MustNotifyAll? then WakeWorkers(s.workers) else s.workers
    }
    ensures s'.active == s.active +
      if !a.WorkerStep? || a.w !in s.workers then 0
      else if s.workers[a.w].Popped? then 1
      else if s.workers[a.w].Ran? then -1
      else 0
  {
    hide StepWorker, WakeWorkers, MayBeginSubmit, MayDestroy, WakeWaiters;
    match a
    case WorkerStep(w) => OneWorkerMoves(s, w, s');
    case SubmitStep(_) =>
    case NotifyOne(_, _) =>
    case _ =>
  }

  ghost predicate SameLog(s: State, s': State) {
    && s'.queue == s.queue && s'.pushed == s.pushed && s'.started == s.started
    && s'.finished == s.finished && s'.nextSequence == s.nextSequence
  }

  ghost predicate WorkerLogEffect(s: State, w: nat, s': State)
    requires w in s.workers && w in s'.workers
  {
    if s.workers[w].Chosen? && s.queue != {} then
      && s'.workers[w] == Popped(Top(s.queue))
      && s'.queue == s.queue - {Top(s.queue)} && s'.started == s.started + [Top(s.queue)]
      && s'.pushed == s.pushed && s'.nextSequence == s.nextSequence && s'.finished == s.finished
    else if s.workers[w].Running? then
      && s'.workers[w] == Ran && s'.finished == s.finished + [s.workers[w].job]
      && s'.queue == s.queue && s'.started == s.started && s'.pushed == s.pushed && s'.nextSequence == s.nextSequence
    else
      && SameLog(s, s') && !s'.workers[w].Popped?
      && (s.workers[w].Chosen? ==> s'.workers[w].Exited? && s.stop)
  }

  lemma OneWorkerLogs(s: State, w: nat, s': State)
    requires w in s.workers && StepWorker(s, w) == Some(s')
    ensures w in s'.workers && WorkerLogEffect(s, w, s')
  {
    hide IsTop;
    match s.workers[w]
    case Chosen =>
    case Running(_) =>
    case Notifying =>
    case _ =>
  }

  /** The job a `submit` in its critical section pushes. */
  function NewJob(s: State, who: Submitter): Job
    requires who in s.submits && s.submits[who].Pushing?
  {
    JobQueue.Job(s.submits[who].priority, s.nextSequence, Some(s.submits[who].task))
  }

  lemma LogEffect(s: State, a: Action, s': State)
    requires Step(s, a) == Some(s')
    ensures
      if a.WorkerStep? then a.w in s.workers && a.w in s'.workers && WorkerLogEffect(s, a.w, s')
      else if a.SubmitStep? && a.who in s.submits && s.submits[a.who].Pushing? then
        var job := NewJob(s, a.who);
        && s'.queue == s.queue + {job} && s'.pushed == s.pushed + [job] && s'.nextSequence == s.nextSequence + 1
        && s'.started == s.started && s'.finished == s.finished
      else SameLog(s, s')
  {
    hide StepWorker;
    if a.WorkerStep? { OneWorkerLogs(s, a.w, s'); }
  }

  /** What no step of a worker touches, and whom it wakes. */
  lemma OneWorkerKeeps(s: State, w: nat, s': State)
    requires w in s.workers && StepWorker(s, w) == Some(s')
    ensures s'.submits == s.submits && s'.destroy == s.destroy && s'.stop == s.stop
    ensures s'.waiters == if s.workers[w].Notifying? && s.queue == {} then WakeWaiters(s.waiters) else s.waiters
  {
    hide IsTop, WakeWaiters;
    match s.workers[w]
    case Chosen =>
    case Notifying =>
    case _ =>
  }

  lemma SubmitsEffect(s: State, a: Action, s': State)
    requires Step(s, a) == Some(s')
    ensures match a {
      case BeginSubmit(who, priority, task) =>
        MayBeginSubmit(s, who) && s'.submits == s.submits[who := Submitting(priority, task)]
      case SubmitStep(who) =>
        && who in s.submits && s'.submits == s.submits[who := s'.submits[who]]
        && (if s.submits[who].Submitting? then s'.submits[who].Pushing?
            else s.submits[who].Pushing? && s'.submits[who].MustNotify?)
      case NotifyOne(who, wakes) =>
        && who in s.submits && s.submits[who].MustNotify? && s'.submits == s.submits - {who}
        && (wakes.None? ==> !SomeSleeper(s)) && (wakes.Some? ==> s.workers[wakes.value].Sleeping?)
      case _ => s'.submits == s.submits
    }
  {
    hide StepWorker, WakeWorkers;
    match a
    case WorkerStep(w) => OneWorkerKeeps(s, w, s');
    case SubmitStep(_) =>
    case NotifyOne(_, _) =>
    case _ =>
  }

  ghost predicate MayWaitMove(from: WaiterPc, to: WaiterPc) {
    match from
    case WaitWantLock => to.WaitChecking?
    case WaitChecking => to.Returned? || to.WaitGoingToSleep?
    case WaitGoingToSleep => to.WaitSleeping?
    case WaitSleeping => to.WaitWantLock?
    case Returned(_) => false
  }

  lemma WaitersEffect(s: State, a: Action, s': State)
    requires Step(s, a) == Some(s')
    ensures match a {
      case BeginWait(c) => s.destroy.NotStarted? && s'.waiters == s.waiters[c := WaitWantLock] && c !in s.waiters
      case WaitStep(c) =>
        && c in s.waiters && s'.waiters == s.waiters[c := s'.waiters[c]] && MayWaitMove(s.waiters[c], s'.waiters[c])
        && (s'.waiters[c].Returned? ==> s'.waiters[c].seen == s.pushed && s.queue == {} && s.active == 0)
        && (s'.waiters[c].WaitGoingToSleep? ==> s.queue != {} || s.active != 0)
      case WaitSpuriousWake(c) =>
        c in s.waiters && s.waiters[c].WaitSleeping? && s'.waiters == s.waiters[c := WaitWantLock]
      case WorkerStep(w) =>
        s'.waiters == if s.workers[w].Notifying? && s.queue == {} then WakeWaiters(s.waiters) else s.waiters
      case _ => s'.waiters == s.waiters
    }
  {
    hide StepWorker, WakeWorkers, WakeWaiters;
    match a
    case WorkerStep(w) => OneWorkerKeeps(s, w, s');
    case WaitStep(_) =>
    case _ =>
  }

  lemma DestroyEffect(s: State, a: Action, s': State)
    requires Step(s, a) == Some(s')
    ensures !a.DestroyStep? ==> s'.destroy == s.destroy && s'.stop == s.stop
    ensures a.DestroyStep? ==> match s.destroy {
      case NotStarted => MayDestroy(s) && s'.destroy.StopWantLock? && s'.stop == s.stop
      case StopWantLock => s'.destroy.Stopping? && s'.stop == s.stop
      case Stopping => s'.destroy.MustNotifyAll? && s'.stop
      case MustNotifyAll => s'.destroy.Joining? && s'.stop == s.stop
      case Joining => s'.destroy.Joined? && s'.stop == s.stop && forall w :: w in s.workers ==> s.workers[w].Exited?
      case Joined => false
    }
  {
    hide StepWorker, WakeWorkers;
    match a
    case DestroyStep =>
    case WorkerStep(w) => OneWorkerKeeps(s, w, s');
    case _ =>
  }

  lemma WorkerDecisions(s: State, w: nat, s': State)
    requires Step(s, WorkerStep(w)) == Some(s')
    ensures w in s.workers && w in s'.workers
    ensures s.workers[w].Checking? ==> (s'.workers[w].GoingToSleep? <==> !s.stop && s.queue == {})
    ensures s.workers[w].Ran? ==> (s'.workers[w].WantNotify? <==> s.active == 1)
    ensures s.workers[w].Running? ==> Inside(w) !in s.submits
    ensures s'.workers[w].Exited? ==> s.stop && s.queue == {}
  {
    hide IsTop;
    match s.workers[w]
    case Chosen =>
    case Notifying =>
    case _ =>
  }

  // ---------------------------------------------------------------- every step keeps the invariant

  lemma OthersHold(s: State, a: Action, s': State, b: Agent)
    requires Step(s, a) == Some(s') && b != Actor(a)
    ensures Holds(s', b) <==> Holds(s, b)
  {
    hide Step;
    WorkersEffect(s, a, s');
    SubmitsEffect(s, a, s');
    WaitersEffect(s, a, s');
    DestroyEffect(s, a, s');
  }

  lemma WorkerHolds(s: State, w: nat, s': State)
    requires w in s.workers && StepWorker(s, w) == Some(s')
    ensures
      || (s.lock == None && s'.lock == Some(Worker(w)) && Holds(s', Worker(w)))
      || (Holds(s, Worker(w)) && s'.lock == None && !Holds(s', Worker(w)))
      || (s'.lock == s.lock && (Holds(s, Worker(w)) <==> Holds(s', Worker(w))))
  {
    hide IsTop;
    match s.workers[w]
    case Chosen =>
    case Notifying =>
    case _ =>
  }

  lemma NotifyHolds(s: State, a: Action, s': State)
    requires a.NotifyOne? && Step(s, a) == Some(s')
    ensures s'.lock == s.lock && !Holds(s, Actor(a)) && !Holds(s', Actor(a))
  {
    hide StepWorker;
  }

  lemma ActorHolds(s: State, a: Action, s': State)
    requires Step(s, a) == Some(s')
    ensures
      || (s.lock == None && s'.lock == Some(Actor(a)) && Holds(s', Actor(a)))
      || (Holds(s, Actor(a)) && s'.lock == None && !Holds(s', Actor(a)))
      || (s'.lock == s.lock && (Holds(s, Actor(a)) <==> Holds(s', Actor(a))))
  {
    hide StepWorker, WakeWorkers, SomeSleeper, StepNotifyOne;
    match a
    case WorkerStep(w) => WorkerHolds(s, w, s');
    case NotifyOne(_, _) => NotifyHolds(s, a, s');
    case SubmitStep(_) =>
    case WaitStep(_) =>
    case DestroyStep =>
    case _ =>
  }

  lemma LockKept(s: State, a: Action, s': State)
    requires LockOk(s) && Step(s, a) == Some(s')
    ensures LockOk(s')
  {
    hide Step, Holds;
    ActorHolds(s, a, s');
    forall b ensures Holds(s', b) <==> s'.lock == Some(b) {
      assert Holds(s, b) <==> s.lock == Some(b);
      assert Holds(s, Actor(a)) <==> s.lock == Some(Actor(a));
      if b != Actor(a) { OthersHold(s, a, s', b); }
    }
  }

  lemma SizeWithOneChange<T>(before: set<T>, after: set<T>, x: T)
    requires before - {x} == after - {x}
    ensures |after| == |before| + (if x in after then 1 else 0) - (if x in before then 1 else 0)
  {
    assert before == (before - {x}) + if x in before then {x} else {};
    assert after == (after - {x}) + if x in after then {x} else {};
  }

  lemma CountUpdate(s: State, w: nat, s': State)
    requires w in s.workers && w in s'.workers && s'.workers == s.workers[w := s'.workers[w]]
    ensures |CountedWorkers(s')| == |CountedWorkers(s)|
      + (if IsCounted(s'.workers[w]) then 1 else 0) - (if IsCounted(s.workers[w]) then 1 else 0)
    ensures |Contenders(s')| == |Contenders(s)|
      + (if Contends(s'.workers[w]) then 1 else 0) - (if Contends(s.workers[w]) then 1 else 0)
  {
    SizeWithOneChange(CountedWorkers(s), CountedWorkers(s'), w);
    SizeWithOneChange(Contenders(s), Contenders(s'), w);
  }

  lemma CountKept(s: State, a: Action, s': State)
    requires CountOk(s) && Step(s, a) == Some(s')
    ensures CountOk(s')
  {
    hide Step;
    WorkersEffect(s, a, s');
    if Mover(a).Some? {
      CountUpdate(s, Mover(a).value, s');
    } else {
      assert CountedWorkers(s') == CountedWorkers(s);
    }
  }

  lemma PushedKept(s: State, a: Action, s': State)
    requires PushedOk(s) && Step(s, a) == Some(s')
    ensures PushedOk(s')
  {
    hide Step;
    LogEffect(s, a, s');
  }

  lemma StartedKept(s: State, a: Action, s': State)
    requires PushedOk(s) && StartedOk(s) && Step(s, a) == Some(s')
    ensures StartedOk(s')
  {
    hide Step;
    LogEffect(s, a, s');
    if a.WorkerStep? && s.workers[a.w].Chosen? && s.queue != {} {
      var job := Top(s.queue);
      assert job in s.queue;
      assert forall j :: j in s'.started <==> j in s.started || j == job;
    } else if a.SubmitStep? && a.who in s.submits && s.submits[a.who].Pushing? {
      var job := NewJob(s, a.who);
      assert forall j :: j in s'.pushed <==> j in s.pushed || j == job;
      assert job !in s.pushed;
    }
  }

  lemma HeldKept(s: State, a: Action, s': State, w: nat, j: Job)
    requires Step(s, a) == Some(s')
    ensures HeldBy(s', w, j) ==>
      HeldBy(s, w, j) || (a == WorkerStep(w) && s.workers[w].Chosen? && s.queue != {} && j == Top(s.queue))
    ensures HeldBy(s, w, j) ==> HeldBy(s', w, j) || (a == WorkerStep(w) && s.workers[w] == Running(j))
  {
    hide Step;
    WorkersEffect(s, a, s');
    LogEffect(s, a, s');
  }

  lemma FinishedKept(s: State, a: Action, s': State)
    requires StartedOk(s) && FinishedOk(s) && Step(s, a) == Some(s')
    ensures FinishedOk(s')
  {
    hide Step;
    LogEffect(s, a, s');
    forall w, j ensures
      && (HeldBy(s', w, j) ==>
            HeldBy(s, w, j) || (a == WorkerStep(w) && s.workers[w].Chosen? && s.queue != {} && j == Top(s.queue)))
      && (HeldBy(s, w, j) ==> HeldBy(s', w, j) || (a == WorkerStep(w) && s.workers[w] == Running(j)))
    {
      HeldKept(s, a, s', w, j);
    }
    if a.WorkerStep? && s.workers[a.w].Chosen? && s.queue != {} {
      assert HeldBy(s', a.w, Top(s.queue)) && IsTop(s.queue, Top(s.queue));
      assert forall j :: j in s'.started <==> j in s.started || j == Top(s.queue);
    } else if a.WorkerStep? && s.workers[a.w].Running? {
      assert HeldBy(s, a.w, s.workers[a.w].job);
      assert forall j :: j in s'.finished <==> j in s.finished || j == s.workers[a.w].job;
    }
  }

  lemma OrderKept(s: State, a: Action, s': State)
    requires PushedOk(s) && StartedOk(s) && OrderOk(s) && Step(s, a) == Some(s')
    ensures OrderOk(s')
  {
    hide Step;
    LogEffect(s, a, s');
    if a.WorkerStep? && s.workers[a.w].Chosen? && s.queue != {} {
      var job := Top(s.queue);
      forall j | j in s'.queue && j.priority == job.priority ensures job.sequence < j.sequence {
        assert !JobQueue.Less(job, j) && j in s.pushed && job in s.pushed;
      }
    } else if a.SubmitStep? && a.who in s.submits && s.submits[a.who].Pushing? {
      assert forall j :: j in s.started ==> j in s.pushed;
    }
  }

  lemma SleeperKept(s: State, a: Action, s': State)
    requires Step(s, a) == Some(s') && SomeSleeper(s')
    ensures SomeSleeper(s) || (a.WorkerStep? && a.w in s.workers && s.workers[a.w].GoingToSleep?)
    ensures s'.workers != s.workers ==> Mover(a).Some?
  {
    hide Step;
    WorkersEffect(s, a, s');
    var w :| w in s'.workers && s'.workers[w].Sleeping?;
    assert w in s.workers && (s.workers[w].Sleeping? || (a.WorkerStep? && a.w == w && s.workers[w].GoingToSleep?));
  }

  lemma NotifiersUpdate(s: State, a: Action, s': State)
    requires Step(s, a) == Some(s')
    ensures |Notifiers(s')| == |Notifiers(s)| +
      if a.SubmitStep? && a.who in s.submits && s.submits[a.who].Pushing? then 1 else if a.NotifyOne? then -1 else 0
  {
    hide Step;
    SubmitsEffect(s, a, s');
    if a.SubmitStep? || a.NotifyOne? {
      SizeWithOneChange(Notifiers(s), Notifiers(s'), a.who);
    } else {
      assert Notifiers(s') == Notifiers(s);
    }
  }

  lemma WakeKept(s: State, a: Action, s': State)
    requires StopOk(s) && WakeOk(s) && Step(s, a) == Some(s')
    ensures WakeOk(s')
  {
    hide Step;
    if SomeSleeper(s') {
      SleeperKept(s, a, s');
      WorkersEffect(s, a, s');
      LogEffect(s, a, s');
      SubmitsEffect(s, a, s');
      NotifiersUpdate(s, a, s');
      hide Notifiers;
      if Mover(a).Some? { CountUpdate(s, Mover(a).value, s'); }
    }
  }

  lemma StopKeptForWorkers(s: State, a: Action, s': State, w: nat)
    requires LockOk(s) && StopOk(s) && Step(s, a) == Some(s') && w in s'.workers
    ensures s'.workers[w].Exited? ==> s'.stop
    ensures s'.workers[w].GoingToSleep? ==> !s'.stop && s'.queue == {}
    ensures s'.workers[w].Chosen? ==> s'.stop || s'.queue != {}
    ensures s'.workers[w].Sleeping? ==> !s'.destroy.Joining? && !s'.destroy.Joined?
    ensures s'.destroy.Joined? ==> s'.workers[w].Exited?
  {
    hide Step;
    WorkersEffect(s, a, s');
    LogEffect(s, a, s');
    SubmitsEffect(s, a, s');
    DestroyEffect(s, a, s');
    if a.WorkerStep? { WorkerDecisions(s, a.w, s'); }
    assert Holds(s, Worker(w)) ==> Holds(s, Actor(a)) ==> Actor(a) == Worker(w);
  }

  lemma StopKept(s: State, a: Action, s': State)
    requires LockOk(s) && StopOk(s) && Step(s, a) == Some(s')
    ensures StopOk(s')
  {
    hide Step;
    forall w | w in s'.workers ensures
      && (s'.workers[w].Exited? ==> s'.stop)
      && (s'.workers[w].GoingToSleep? ==> !s'.stop && s'.queue == {})
      && (s'.workers[w].Chosen? ==> s'.stop || s'.queue != {})
      && (s'.workers[w].Sleeping? ==> !s'.destroy.Joining? && !s'.destroy.Joined?)
      && (s'.destroy.Joined? ==> s'.workers[w].Exited?)
    {
      StopKeptForWorkers(s, a, s', w);
    }
    WorkersEffect(s, a, s');
    SubmitsEffect(s, a, s');
    WaitersEffect(s, a, s');
    DestroyEffect(s, a, s');
    if a.WorkerStep? { WorkerDecisions(s, a.w, s'); }
  }

  lemma DrainKept(s: State, a: Action, s': State)
    requires StopOk(s) && DrainOk(s) && Step(s, a) == Some(s')
    ensures DrainOk(s')
  {
    hide Step;
    WorkersEffect(s, a, s');
    LogEffect(s, a, s');
    DestroyEffect(s, a, s');
    if a.WorkerStep? { WorkerDecisions(s, a.w, s'); }
    if s'.queue != {} {
      if s.queue != {} {
        var w :| w in s.workers && !s.workers[w].Exited?;
        assert w in s'.workers && !s'.workers[w].Exited?;
      } else {
        assert a.SubmitStep?;
        var w :| w in s.workers && (a.who.Client? || a.who.worker == w);
        assert !s'.workers[w].Exited?;
      }
    }
  }

  lemma NotifyWakesAll(s: State, a: Action, s': State)
    requires LockOk(s) && Step(s, a) == Some(s')
    ensures a.WorkerStep? && a.w in s.workers && s.workers[a.w].Notifying? && s.queue == {} ==> !SomeIdleSleeper(s')
  {
    hide Step;
    WaitersEffect(s, a, s');
    if a.WorkerStep? && a.w in s.workers && s.workers[a.w].Notifying? {
      assert Holds(s, Worker(a.w)) <==> s.lock == Some(Worker(a.w));
      forall c | c in s.waiters ensures !s.waiters[c].WaitGoingToSleep? {
        assert Holds(s, Waiter(c)) <==> s.lock == Some(Waiter(c));
      }
    }
  }

  lemma QueueEmptied(s: State, a: Action, s': State)
    requires Step(s, a) == Some(s') && s.queue != {} && s'.queue == {}
    ensures exists w :: w in s'.workers && s'.workers[w].Popped?
  {
    hide Step;
    LogEffect(s, a, s');
    assert s'.workers[a.w].Popped?;
  }

  lemma IdleKept(s: State, a: Action, s': State)
    requires LockOk(s) && CountOk(s) && IdleOk(s) && Step(s, a) == Some(s')
    ensures IdleOk(s')
  {
    hide Step;
    if SomeIdleSleeper(s') && NothingOutstanding(s') {
      WorkersEffect(s, a, s');
      LogEffect(s, a, s');
      WaitersEffect(s, a, s');
      if a.WorkerStep? { WorkerDecisions(s, a.w, s'); }
      if NothingOutstanding(s) {
        assert CountedWorkers(s) == {};
        assert SomeIdleSleeper(s);
        var v :| v in s.workers && (s.workers[v].WantNotify? || s.workers[v].Notifying?);
        assert Holds(s, Worker(v)) <==> s.lock == Some(Worker(v));
        assert !(a == WorkerStep(v) && s.workers[v].Notifying?) by { NotifyWakesAll(s, a, s'); }
        assert v in s'.workers && (s'.workers[v].WantNotify? || s'.workers[v].Notifying?);
      } else {
        assert s.queue == {} by { if s.queue != {} { QueueEmptied(s, a, s'); } }
        var v :| v in s.workers && (s.workers[v].Popped? || IsCounted(s.workers[v]));
        assert v in s'.workers;
        assert a == WorkerStep(v) && s.workers[v].Ran?;
        CountKept(s, a, s');
        assert CountedWorkers(s') == {};
        assert s'.workers[a.w].WantNotify?;
      }
    }
  }

  lemma ReturnedKept(s: State, a: Action, s': State)
    requires LockOk(s) && CountOk(s) && StartedOk(s) && FinishedOk(s) && ReturnedOk(s) && Step(s, a) == Some(s')
    ensures ReturnedOk(s')
  {
    hide Step;
    LogEffect(s, a, s');
    WaitersEffect(s, a, s');
    if a.WaitStep? && s'.waiters[a.c].Returned? {
      forall w | w in s.workers ensures !HasJob(s.workers[w]) {
        assert Holds(s, Waiter(a.c)) && !Holds(s, Worker(w));
        assert w !in CountedWorkers(s);
      }
    }
  }

  lemma StepKeepsInv(s: State, a: Action, s': State)
    requires Inv(s) && Step(s, a) == Some(s')
    ensures Inv(s')
  {
    hide Step;
    LockKept(s, a, s');
    CountKept(s, a, s');
    PushedKept(s, a, s');
    StartedKept(s, a, s');
    FinishedKept(s, a, s');
    OrderKept(s, a, s');
    WakeKept(s, a, s');
    StopKept(s, a, s');
    DrainKept(s, a, s');
    IdleKept(s, a, s');
    ReturnedKept(s, a, s');
  }

  // ---------------------------------------------------------------- runs

  /** `s` is reached from `start` by some interleaving. */
  ghost predicate Reaches(start: State, actions: seq<Action>, s: State)
    decreases |actions|
  {
    if actions == [] then s == start
    else Step(start, actions[0]).Some? && Reaches(Step(start, actions[0]).value, actions[1..], s)
  }

  ghost predicate Reachable(s: State) {
    exists start, actions :: Start(start) && Reaches(start, actions, s)
  }

  lemma {:induction false} RunKeepsInv(start: State, actions: seq<Action>, s: State)
    requires Inv(start) && Reaches(start, actions, s)
    ensures Inv(s)
    decreases |actions|
  {
    hide Inv, Step;
    if actions != [] {
      var next := Step(start, actions[0]).value;
      StepKeepsInv(start, actions[0], next);
      RunKeepsInv(next, actions[1..], s);
    }
  }

  lemma StartIsGood(s: State)
    requires Start(s)
    ensures Inv(s)
  {
  }

  lemma ReachableIsGood(s: State)
    requires Reachable(s)
    ensures Inv(s)
  {
    var start, actions :| Start(start) && Reaches(start, actions, s);
    StartIsGood(start);
    hide Inv;
    RunKeepsInv(start, actions, s);
  }

  // ---------------------------------------------------------------- what the pool promises

  lemma {:induction false} DistinctOccursOnce(jobs: seq<Job>, j: Job)
    requires Distinct(jobs)
    ensures multiset(jobs)[j] == if j in jobs then 1 else 0
  {
    if jobs != [] {
      var rest := jobs[..|jobs| - 1];
      assert jobs == rest + [jobs[|jobs| - 1]];
      DistinctOccursOnce(rest, j);
    }
  }

  /** No job runs twice, or runs without having been submitted. */
  lemma RunsAtMostOnce(s: State, j: Job)
    requires Reachable(s)
    ensures multiset(s.finished)[j] <= multiset(s.started)[j] <= multiset(s.pushed)[j] <= 1
  {
    ReachableIsGood(s);
    assert Distinct(s.pushed);
    DistinctOccursOnce(s.pushed, j);
    DistinctOccursOnce(s.started, j);
    DistinctOccursOnce(s.finished, j);
  }

  /** When the destructor's joins are over, every job ever submitted has run to its end, once. */
  lemma JoinDrains(s: State)
    requires Reachable(s) && s.destroy.Joined?
    ensures s.queue == {} && multiset(s.finished) == multiset(s.pushed)
  {
    ReachableIsGood(s);
    forall j ensures multiset(s.finished)[j] == multiset(s.pushed)[j] {
      assert Distinct(s.pushed);
      DistinctOccursOnce(s.pushed, j);
      DistinctOccursOnce(s.finished, j);
    }
  }

  /** While a worker sleeps, no waiting job is without an awake worker or a notification on its way. */
  lemma NoLostWorkWakeup(s: State)
    requires Reachable(s) && SomeSleeper(s)
    ensures |s.queue| <= |Contenders(s)| + |Notifiers(s)|
    ensures s.queue != {} && Notifiers(s) == {} ==> exists w :: w in s.workers && Contends(s.workers[w])
  {
    ReachableIsGood(s);
    if s.queue != {} && Notifiers(s) == {} {
      assert |Contenders(s)| > 0;
      var w :| w in Contenders(s);
    }
  }

  /** While a `waitIdle` caller sleeps with nothing outstanding, a worker is on its way to notify it. */
  lemma NoLostIdleWakeup(s: State)
    requires Reachable(s) && SomeIdleSleeper(s)
    requires s.queue == {} && s.active == 0 && forall w :: w in s.workers ==> !s.workers[w].Popped?
    ensures exists w :: w in s.workers && (s.workers[w].WantNotify? || s.workers[w].Notifying?)
  {
    ReachableIsGood(s);
    forall w | w in s.workers ensures !IsCounted(s.workers[w]) {
      assert w !in CountedWorkers(s);
    }
  }

  /** `waitIdle` returns in a state in which every job pushed so far has finished. */
  lemma WaitIdleSeesEverythingDone(s: State, c: nat, s': State)
    requires Reachable(s) && c in s.waiters && Step(s, WaitStep(c)) == Some(s') && s'.waiters[c].Returned?
    ensures forall j :: j in s.pushed ==> j in s'.finished
  {
    ReachableIsGood(s);
    hide Inv;
    StepKeepsInv(s, WaitStep(c), s');
    WaitersEffect(s, WaitStep(c), s');
    ReturnedSeesFinished(s', c);
  }

  lemma ReturnedSeesFinished(s: State, c: nat)
    requires Inv(s) && c in s.waiters && s.waiters[c].Returned?
    ensures forall j :: j in s.waiters[c].seen ==> j in s.finished
  {
  }

  /** Among jobs of one priority, the one submitted first starts first. */
  lemma StartsInSubmitOrder(s: State, i: nat, k: nat)
    requires Reachable(s) && i < |s.pushed| && k < |s.pushed| && i < k
    requires s.pushed[i].priority == s.pushed[k].priority && s.pushed[k] in s.started
    ensures exists x, y :: 0 <= x < y < |s.started| && s.started[x] == s.pushed[i] && s.started[y] == s.pushed[k]
  {
    ReachableIsGood(s);
    assert PushedOk(s) && StartedOk(s) && OrderOk(s);
    hide Inv;
    var first, second := s.pushed[i], s.pushed[k];
    assert first.sequence < second.sequence && first in s.pushed;
    var y :| 0 <= y < |s.started| && s.started[y] == second;
    assert first !in s.queue;
    var x :| 0 <= x < |s.started| && s.started[x] == first;
  }

  /** The job a worker starts has the smallest priority number in the queue, and was submitted first among those. */
  lemma MostUrgentStarts(s: State, a: Action, s': State)
    requires Reachable(s) && Step(s, a) == Some(s') && s'.started != s.started
    ensures |s'.started| == |s.started| + 1 && s.started <= s'.started
    ensures var job := s'.started[|s.started|];
      && job in s.queue && s'.queue == s.queue - {job}
      && forall other :: other in s.queue && other != job ==>
           job.priority < other.priority || (job.priority == other.priority && job.sequence < other.sequence)
  {
    ReachableIsGood(s);
    LogEffect(s, a, s');
    assert PushedOk(s) && StartedOk(s);
    hide Step, Inv;
    var job := Top(s.queue);
    forall other | other in s.queue && other != job
      ensures job.priority < other.priority || (job.priority == other.priority && job.sequence < other.sequence)
    {
      assert job in s.pushed && other in s.pushed;
      JobQueue.LessIsAStrictOrder(job, other, job);
    }
  }

  // ---------------------------------------------------------------- what is pushed is what was submitted

  predicate IsCall(pc: SubmitPc, priority: JobQueue.Priority, task: Task) {
    pc == Submitting(priority, task) || pc == Pushing(priority, task)
  }

  function CallsInProgress(s: State, priority: JobQueue.Priority, task: Task): set<Submitter> {
    set who | who in s.submits && IsCall(s.submits[who], priority, task)
  }

  /** How many of the jobs run this task at this priority. */
  function JobsOf(jobs: seq<Job>, priority: JobQueue.Priority, task: Task): nat {
    if jobs == [] then 0
    else
      var last := jobs[|jobs| - 1];
      JobsOf(jobs[..|jobs| - 1], priority, task) + if last.priority == priority && last.fn == Some(task) then 1 else 0
  }

  /** How many of the steps are calls of `submit` with this task and priority. */
  function CallsOf(actions: seq<Action>, priority: JobQueue.Priority, task: Task): nat {
    if actions == [] then 0
    else
      (if actions[0].BeginSubmit? && actions[0].priority == priority && actions[0].task == task then 1 else 0)
      + CallsOf(actions[1..], priority, task)
  }

  lemma StepKeepsCalls(s: State, a: Action, s': State, priority: JobQueue.Priority, task: Task)
    requires Step(s, a) == Some(s')
    ensures JobsOf(s'.pushed, priority, task) + |CallsInProgress(s', priority, task)|
         == JobsOf(s.pushed, priority, task) + |CallsInProgress(s, priority, task)| + CallsOf([a], priority, task)
  {
    var before, after := CallsInProgress(s, priority, task), CallsInProgress(s', priority, task);
    SubmitsEffect(s, a, s');
    LogEffect(s, a, s');
    if a.BeginSubmit? || a.SubmitStep? || a.NotifyOne? {
      assert before - {a.who} == after - {a.who};
      SizeWithOneChange(before, after, a.who);
    } else {
      assert before == after;
    }
    assert s'.pushed != s.pushed ==> s'.pushed[..|s'.pushed| - 1] == s.pushed;
  }

  lemma {:induction false} CallsAddUp(start: State, actions: seq<Action>, s: State,
                                      priority: JobQueue.Priority, task: Task)
    requires Reaches(start, actions, s)
    ensures JobsOf(s.pushed, priority, task) + |CallsInProgress(s, priority, task)|
         == JobsOf(start.pushed, priority, task) + |CallsInProgress(start, priority, task)|
            + CallsOf(actions, priority, task)
    decreases |actions|
  {
    hide Step, JobsOf, CallsInProgress;
    if actions != [] {
      var next := Step(start, actions[0]).value;
      StepKeepsCalls(start, actions[0], next, priority, task);
      CallsAddUp(next, actions[1..], s, priority, task);
      assert [actions[0]][1..] == [];
    }
  }

  /** Every call of `submit` is pushed once with its own task and priority, or is still on its way; nothing else is. */
  lemma PushedAreSubmitted(start: State, actions: seq<Action>, s: State, priority: JobQueue.Priority, task: Task)
    requires Start(start) && Reaches(start, actions, s)
    ensures JobsOf(s.pushed, priority, task) + |CallsInProgress(s, priority, task)| == CallsOf(actions, priority, task)
  {
    CallsAddUp(start, actions, s, priority, task);
    assert CallsInProgress(start, priority, task) == {};
  }

  // ---------------------------------------------------------------- no deadlock

  /** A step the pool takes by itself: no new call from outside, no spurious wakeup. */
  ghost predicate CanProgress(s: State) {
    || (exists w :: Step(s, WorkerStep(w)).Some?)
    || (exists who :: Step(s, SubmitStep(who)).Some?)
    || (exists who, wakes :: Step(s, NotifyOne(who, wakes)).Some?)
    || (exists c :: Step(s, WaitStep(c)).Some?)
    || (!s.destroy.NotStarted? && Step(s, DestroyStep).Some?)
  }

  lemma OwnerCanProgress(s: State)
    requires LockOk(s) && StopOk(s) && s.lock.Some?
    ensures CanProgress(s)
  {
    assert Holds(s, s.lock.value);
    match s.lock.value
    case Worker(w) => assert Step(s, WorkerStep(w)).Some?;
    case Submit(who) => assert Step(s, SubmitStep(who)).Some?;
    case Waiter(c) => assert Step(s, WaitStep(c)).Some?;
    case Destroyer => assert Step(s, DestroyStep).Some?;
  }

  ghost predicate Restful(s: State) {
    && s.submits == map[]
    && (forall w :: w in s.workers ==> s.workers[w].Sleeping? || s.workers[w].Exited?)
    && (forall c :: c in s.waiters ==> s.waiters[c].WaitSleeping? || s.waiters[c].Returned?)
    && (s.destroy.NotStarted? || s.destroy.Joining? || s.destroy.Joined?)
  }

  lemma SubmitterCanProgress(s: State, who: Submitter)
    requires s.lock == None && who in s.submits && !s.submits[who].Pushing?
    ensures CanProgress(s)
  {
    if s.submits[who].MustNotify? {
      if w :| w in s.workers && s.workers[w].Sleeping? {
        assert Step(s, NotifyOne(who, Some(w))).Some?;
      } else {
        assert Step(s, NotifyOne(who, None)).Some?;
      }
    } else {
      assert Step(s, SubmitStep(who)).Some?;
    }
  }

  lemma RestfulOrProgress(s: State)
    requires LockOk(s) && StopOk(s) && s.lock == None
    ensures Restful(s) || CanProgress(s)
  {
    forall a ensures !Holds(s, a) {}
    if who :| who in s.submits {
      assert !Holds(s, Submit(who));
      SubmitterCanProgress(s, who);
    } else if w :| w in s.workers && !s.workers[w].Sleeping? && !s.workers[w].Exited? {
      assert !Holds(s, Worker(w));
      assert Step(s, WorkerStep(w)).Some?;
    } else if c :| c in s.waiters && !s.waiters[c].WaitSleeping? && !s.waiters[c].Returned? {
      assert !Holds(s, Waiter(c));
      assert Step(s, WaitStep(c)).Some?;
    } else if !s.destroy.NotStarted? && !s.destroy.Joining? && !s.destroy.Joined? {
      assert !Holds(s, Destroyer);
      assert Step(s, DestroyStep).Some?;
    } else {
      assert s.submits == map[];
    }
  }

  /** The pool has nothing left to do: all work done, no caller of `waitIdle` or destructor stranded. */
  ghost predicate Done(s: State) {
    && s.queue == {} && s.submits == map[] && multiset(s.finished) == multiset(s.pushed)
    && (forall c :: c in s.waiters ==> s.waiters[c].Returned?)
    && (s.destroy.NotStarted? || s.destroy.Joined?)
  }

  lemma RestfulIsDone(s: State)
    requires Inv(s) && Restful(s)
    ensures Done(s) || CanProgress(s)
  {
    assert Contenders(s) == {} && Notifiers(s) == {} && CountedWorkers(s) == {};
    assert s.queue == {};
    assert NothingOutstanding(s) && !IdleNotifierOnTheWay(s);
    forall j ensures multiset(s.finished)[j] == multiset(s.pushed)[j] {
      assert Distinct(s.pushed);
      DistinctOccursOnce(s.pushed, j);
      DistinctOccursOnce(s.finished, j);
    }
    if s.destroy.Joining? {
      assert Step(s, DestroyStep).Some?;
    }
  }

  lemma GoodIsNeverStuck(s: State)
    requires Inv(s)
    ensures Done(s) || CanProgress(s)
  {
    if s.lock.Some? {
      OwnerCanProgress(s);
    } else {
      RestfulOrProgress(s);
      if Restful(s) { RestfulIsDone(s); }
    }
  }

  /** No reachable state is stuck: either the pool is done, or one of its own steps can be taken. */
  lemma NeverStuck(s: State)
    requires Reachable(s)
    ensures Done(s) || CanProgress(s)
  {
    ReachableIsGood(s);
    GoodIsNeverStuck(s);
  }
}
