/**
 The lock-free queue of src/core/util/mpsc_queue.hpp as a system of interleaved atomic steps.

 A push is three steps of its producer (allocate a node, exchange `head`, store `prev->next`); a
 `tryPop` is up to four steps of the one consumer (load `tail->next`, move the value out, advance
 `tail`, delete the old node). `Step` says what one step does to the memory, and answers `Fault`
 when it dereferences or deletes a node that is not live. `History` only observes: no step reads it.
 */
module MpscQueue {
  import opened Wrappers

  type Ref = nat
  type Pid = nat

  /** `value` is None in the stub and in a node whose value has been moved out. */
  datatype Node<T> = Node(value: Option<T>, next: Option<Ref>)

  datatype Push = Allocated(node: Ref) | Exchanged(node: Ref, prev: Ref)

  datatype Pop<T> =
    | Ready
    | Loaded(next: Ref)
    | Taken(next: Ref, value: Option<T>)
    | Advanced(spent: Ref, value: Option<T>)

  /** `heap` holds the live nodes only; a freed address is absent, and may be handed out again. */
  datatype Machine<T> = Machine(heap: map<Ref, Node<T>>, head: Ref, tail: Ref, pushes: map<Pid, Push>, pop: Pop<T>)

  datatype Action<T> =
    | Allocate(pid: Pid, at: Ref, value: T)
    | Exchange(pid: Pid)
    | Link(pid: Pid)
    | Load
    | Take
    | Advance
    | Delete

  datatype Outcome<T> = Disabled | Fault | Next(value: T)

  function Init<T>(stub: Ref): Machine<T> {
    Machine(map[stub := Node(None, None)], stub, stub, map[], Ready)
  }

  function Step<T>(m: Machine<T>, a: Action<T>): Outcome<Machine<T>> {
    match a
    case Allocate(pid, at, value) =>
      if pid in m.pushes || at in m.heap then Disabled
      else Next(m.(heap := m.heap[at := Node(Some(value), None)], pushes := m.pushes[pid := Allocated(at)]))
    case Exchange(pid) =>
      if pid !in m.pushes || !m.pushes[pid].Allocated? then Disabled
      else
        var node := m.pushes[pid].node;
        Next(m.(head := node, pushes := m.pushes[pid := Exchanged(node, m.head)]))
    case Link(pid) =>
      if pid !in m.pushes || !m.pushes[pid].Exchanged? then Disabled
      else
        var Exchanged(node, prev) := m.pushes[pid];
        if prev !in m.heap then Fault
        else Next(m.(heap := m.heap[prev := m.heap[prev].(next := Some(node))], pushes := m.pushes - {pid}))
    case Load =>
      if !m.pop.Ready? then Disabled
      else if m.tail !in m.heap then Fault
      else if m.heap[m.tail].next == None then Next(m)
      else Next(m.(pop := Loaded(m.heap[m.tail].next.value)))
    case Take =>
      if !m.pop.Loaded? then Disabled
      else
        var next := m.pop.next;
        if next !in m.heap then Fault
        else Next(m.(heap := m.heap[next := m.heap[next].(value := None)], pop := Taken(next, m.heap[next].value)))
    case Advance =>
      if !m.pop.Taken? then Disabled
      else Next(m.(tail := m.pop.next, pop := Advanced(m.tail, m.pop.value)))
    case Delete =>
      if !m.pop.Advanced? then Disabled
      else if m.pop.spent !in m.heap then Fault
      else Next(m.(heap := m.heap - {m.pop.spent}, pop := Ready))
  }

  // ---------------------------------------------------------------- observing a run

  /**
   `chain`: the nodes from `tail` to `head` in exchange order. `begun`, `order`: the pushes in the
   order they were called and in the order of their exchanges. `popped`: what `tryPop` returned.
   */
  datatype History<T> = History(chain: seq<Ref>, begun: seq<(Pid, T)>, order: seq<(Pid, T)>, popped: seq<Option<T>>)

  datatype State<T> = State(m: Machine<T>, h: History<T>)

  function Start<T>(stub: Ref): State<T> {
    State(Init(stub), History([stub], [], [], []))
  }

  function Observe<T>(m: Machine<T>, h: History<T>, a: Action<T>): History<T> {
    match a
    case Allocate(pid, at, value) => h.(begun := h.begun + [(pid, value)])
    case Exchange(pid) =>
      if pid in m.pushes && m.pushes[pid].node in m.heap && m.heap[m.pushes[pid].node].value.Some? then
        var node := m.pushes[pid].node;
        h.(chain := h.chain + [node], order := h.order + [(pid, m.heap[node].value.value)])
      else h
    case Advance => if h.chain == [] then h else h.(chain := h.chain[1..])
    case Delete => if m.pop.Advanced? then h.(popped := h.popped + [m.pop.value]) else h
    case _ => h
  }

  function Run<T>(s: State<T>, actions: seq<Action<T>>): Outcome<State<T>>
    decreases |actions|
  {
    if actions == [] then Next(s)
    else match Step(s.m, actions[0])
      case Disabled => Disabled
      case Fault => Fault
      case Next(m') => Run(State(m', Observe(s.m, s.h, actions[0])), actions[1..])
  }

  /** The values one producer contributed to a log. */
  function By<T>(log: seq<(Pid, T)>, pid: Pid): seq<T> {
    if log == [] then []
    else By(log[..|log| - 1], pid) + (if log[|log| - 1].0 == pid then [log[|log| - 1].1] else [])
  }

  // ---------------------------------------------------------------- the invariant

  ghost predicate HalfDone<T>(m: Machine<T>, prev: Ref, node: Ref) {
    exists pid :: pid in m.pushes && m.pushes[pid] == Exchanged(node, prev)
  }

  ghost predicate Unpublished<T>(m: Machine<T>, node: Ref) {
    exists pid :: pid in m.pushes && m.pushes[pid] == Allocated(node)
  }

  ghost predicate ChainOk<T>(s: State<T>) {
    var c := s.h.chain;
    && |c| > 0 && c[0] == s.m.tail && c[|c| - 1] == s.m.head
    && (forall i, j :: 0 <= i < j < |c| ==> c[i] != c[j])
    && (forall i :: 0 <= i < |c| ==> c[i] in s.m.heap)
  }

  ghost predicate LinksOk<T>(s: State<T>)
    requires ChainOk(s)
  {
    var c := s.h.chain;
    && s.m.heap[c[|c| - 1]].next == None
    && forall i :: 0 <= i < |c| - 1 ==>
        || s.m.heap[c[i]].next == Some(c[i + 1])
        || (s.m.heap[c[i]].next == None && HalfDone(s.m, c[i], c[i + 1]))
  }

  ghost predicate ExchangedAt<T>(s: State<T>, p: Push, i: int)
    requires p.Exchanged?
  {
    var c := s.h.chain;
    0 <= i < |c| - 1 && c[i] == p.prev && c[i + 1] == p.node && p.prev in s.m.heap && s.m.heap[p.prev].next == None
  }

  ghost predicate PushOk<T>(s: State<T>, p: Push) {
    match p
    case Allocated(n) =>
      && n in s.m.heap && n !in s.h.chain && s.m.heap[n].value.Some? && s.m.heap[n].next == None
      && (s.m.pop.Advanced? ==> s.m.pop.spent != n)
    case Exchanged(n, prev) => exists i :: ExchangedAt(s, p, i)
  }

  ghost predicate PushesOk<T>(s: State<T>) {
    && (forall pid :: pid in s.m.pushes ==> PushOk(s, s.m.pushes[pid]))
    && (forall p, q :: p in s.m.pushes && q in s.m.pushes && p != q ==> s.m.pushes[p].node != s.m.pushes[q].node)
  }

  ghost predicate PopOk<T>(s: State<T>)
    requires ChainOk(s)
  {
    match s.m.pop
    case Ready => true
    case Loaded(next) => |s.h.chain| > 1 && next == s.h.chain[1] && s.m.heap[s.m.tail].next == Some(next)
    case Taken(next, _) => |s.h.chain| > 1 && next == s.h.chain[1] && s.m.heap[s.m.tail].next == Some(next)
    case Advanced(spent, _) => spent in s.m.heap && spent !in s.h.chain
  }

  /** Every live node is on the chain, or not yet published by a producer, or about to be deleted. */
  ghost predicate MemoryOk<T>(s: State<T>) {
    forall r :: r in s.m.heap ==> r in s.h.chain || Unpublished(s.m, r) || (s.m.pop.Advanced? && s.m.pop.spent == r)
  }

  /** Values removed from the chain so far: those returned, and one on its way out. */
  function Removed<T>(s: State<T>): nat {
    |s.h.popped| + if s.m.pop.Advanced? then 1 else 0
  }

  ghost predicate ValuesOk<T>(s: State<T>)
    requires ChainOk(s)
  {
    var c, order := s.h.chain, s.h.order;
    && |order| == Removed(s) + |c| - 1
    && (forall i :: 0 <= i < |s.h.popped| ==> s.h.popped[i] == Some(order[i].1))
    && (forall i :: 1 <= i < |c| && !(i == 1 && s.m.pop.Taken?) ==>
          s.m.heap[c[i]].value == Some(order[Removed(s) + i - 1].1))
    && (s.m.pop.Taken? ==> |order| > |s.h.popped| && s.m.pop.value == Some(order[|s.h.popped|].1))
    && (s.m.pop.Advanced? ==> s.m.pop.value == Some(order[|s.h.popped|].1))
  }

  function Pending<T>(m: Machine<T>, pid: Pid): seq<T> {
    if pid in m.pushes && m.pushes[pid].Allocated? && m.pushes[pid].node in m.heap
       && m.heap[m.pushes[pid].node].value.Some?
    then [m.heap[m.pushes[pid].node].value.value] else []
  }

  /** A producer's exchanges happen in the order of its calls. */
  ghost predicate ProgramOrderOk<T>(s: State<T>) {
    forall pid :: By(s.h.begun, pid) == By(s.h.order, pid) + Pending(s.m, pid)
  }

  ghost predicate Inv<T>(s: State<T>) {
    ChainOk(s) && LinksOk(s) && PushesOk(s) && PopOk(s) && MemoryOk(s) && ValuesOk(s) && ProgramOrderOk(s)
  }

  // ---------------------------------------------------------------- every step keeps it, none faults

  ghost predicate Moves<T>(s: State<T>, a: Action<T>, s': State<T>) {
    Step(s.m, a) == Next(s'.m) && s'.h == Observe(s.m, s.h, a)
  }

  lemma ChainKept<T>(s: State<T>, a: Action<T>, s': State<T>)
    requires ChainOk(s) && PushesOk(s) && PopOk(s) && Moves(s, a, s')
    ensures ChainOk(s')
  {
  }

  lemma HalfDoneKept<T>(s: State<T>, a: Action<T>, s': State<T>, prev: Ref, node: Ref)
    requires Moves(s, a, s') && HalfDone(s.m, prev, node)
    requires a.Link? ==> s.m.pushes[a.pid] != Exchanged(node, prev)
    ensures HalfDone(s'.m, prev, node)
  {
    var pid :| pid in s.m.pushes && s.m.pushes[pid] == Exchanged(node, prev);
    assert s'.m.pushes[pid] == Exchanged(node, prev);
  }

  lemma LinkKept<T>(s: State<T>, a: Action<T>, s': State<T>, i: nat)
    requires ChainOk(s) && LinksOk(s) && PushesOk(s) && PopOk(s) && Moves(s, a, s') && ChainOk(s')
    requires i < |s'.h.chain| - 1
    ensures var c := s'.h.chain;
      || s'.m.heap[c[i]].next == Some(c[i + 1])
      || (s'.m.heap[c[i]].next == None && HalfDone(s'.m, c[i], c[i + 1]))
  {
    var c, c' := s.h.chain, s'.h.chain;
    match a
    case Exchange(pid) =>
      assert PushOk(s, s.m.pushes[pid]);
      if i == |c| - 1 { assert s'.m.pushes[pid] == Exchanged(c'[i + 1], c'[i]); }
      else if s.m.heap[c[i]].next == None { HalfDoneKept(s, a, s', c[i], c[i + 1]); }
    case Link(pid) =>
      assert PushOk(s, s.m.pushes[pid]);
      var k :| ExchangedAt(s, s.m.pushes[pid], k);
      if i != k && s.m.heap[c[i]].next == None { HalfDoneKept(s, a, s', c[i], c[i + 1]); }
    case Advance =>
      if s.m.heap[c[i + 1]].next == None { HalfDoneKept(s, a, s', c[i + 1], c[i + 2]); }
    case _ =>
      if s.m.heap[c[i]].next == None { HalfDoneKept(s, a, s', c[i], c[i + 1]); }
  }

  lemma LinksKept<T>(s: State<T>, a: Action<T>, s': State<T>)
    requires ChainOk(s) && LinksOk(s) && PushesOk(s) && PopOk(s) && Moves(s, a, s') && ChainOk(s')
    ensures LinksOk(s')
  {
    forall i: nat | i < |s'.h.chain| - 1
      ensures var c := s'.h.chain;
        || s'.m.heap[c[i]].next == Some(c[i + 1])
        || (s'.m.heap[c[i]].next == None && HalfDone(s'.m, c[i], c[i + 1]))
    {
      LinkKept(s, a, s', i);
    }
    if a.Exchange? || a.Link? { assert PushOk(s, s.m.pushes[a.pid]); }
  }

  /** Where a half-done push is on the chain, after a step that is not its own. */
  lemma ExchangedAtKept<T>(s: State<T>, a: Action<T>, s': State<T>, p: Push, i: nat)
    requires ChainOk(s) && PushesOk(s) && PopOk(s) && Moves(s, a, s') && p.Exchanged? && ExchangedAt(s, p, i)
    requires a.Link? ==> s.m.pushes[a.pid].node != p.node
    ensures if a.Advance? then ExchangedAt(s', p, i - 1) else ExchangedAt(s', p, i)
  {
    match a
    case Allocate(_, _, _) =>
    case Exchange(pid) => assert PushOk(s, s.m.pushes[pid]);
    case Link(pid) =>
      assert PushOk(s, s.m.pushes[pid]);
      var k :| ExchangedAt(s, s.m.pushes[pid], k);
      assert k != i;
    case Advance =>
      assert s.h.chain[0] == s.m.tail && s.h.chain[i + 1] == s.h.chain[1..][i];
    case _ =>
  }

  lemma ExchangedPushKept<T>(s: State<T>, a: Action<T>, s': State<T>, pid: Pid)
    requires ChainOk(s) && PushesOk(s) && PopOk(s) && Moves(s, a, s')
    requires pid in s.m.pushes && s.m.pushes[pid].Exchanged? && pid in s'.m.pushes
    ensures PushOk(s', s'.m.pushes[pid])
  {
    var p := s.m.pushes[pid];
    assert PushOk(s, p) && s'.m.pushes[pid] == p;
    assert a.Link? ==> s.m.pushes[a.pid].node != p.node;
    var i :| ExchangedAt(s, p, i);
    hide Observe, ChainOk, PopOk, PushesOk, Step;
    ExchangedAtKept(s, a, s', p, i);
    hide ExchangedAt;
    assert ExchangedAt(s', p, if a.Advance? then i - 1 else i);
  }

  lemma AllocatedPushKept<T>(s: State<T>, a: Action<T>, s': State<T>, pid: Pid)
    requires ChainOk(s) && LinksOk(s) && PushesOk(s) && PopOk(s) && Moves(s, a, s')
    requires pid in s.m.pushes && s.m.pushes[pid].Allocated? && pid in s'.m.pushes
    ensures PushOk(s', s'.m.pushes[pid])
  {
    var p := s.m.pushes[pid];
    assert PushOk(s, p);
    if a.Link? { assert PushOk(s, s.m.pushes[a.pid]); }
    if a.Exchange? && a.pid == pid {
      assert ExchangedAt(s', s'.m.pushes[pid], |s.h.chain| - 1);
    } else if a.Exchange? {
      assert s.m.pushes[a.pid].node != p.node;
    }
  }

  lemma PushKept<T>(s: State<T>, a: Action<T>, s': State<T>, pid: Pid)
    requires ChainOk(s) && LinksOk(s) && PushesOk(s) && PopOk(s) && Moves(s, a, s')
    requires pid in s'.m.pushes
    ensures PushOk(s', s'.m.pushes[pid])
  {
    if pid in s.m.pushes {
      if s.m.pushes[pid].Exchanged? {
        ExchangedPushKept(s, a, s', pid);
      } else {
        AllocatedPushKept(s, a, s', pid);
      }
      hide PushOk;
    }
  }

  lemma NewNodeIsNew<T>(s: State<T>, a: Action<T>, s': State<T>)
    requires ChainOk(s) && PushesOk(s) && a.Allocate? && Moves(s, a, s')
    ensures forall p :: p in s.m.pushes ==> s.m.pushes[p].node != a.at
  {
  }

  lemma PushesKept<T>(s: State<T>, a: Action<T>, s': State<T>)
    requires ChainOk(s) && LinksOk(s) && PushesOk(s) && PopOk(s) && Moves(s, a, s')
    ensures PushesOk(s')
  {
    forall pid | pid in s'.m.pushes ensures PushOk(s', s'.m.pushes[pid]) {
      PushKept(s, a, s', pid);
    }
    if a.Allocate? { NewNodeIsNew(s, a, s'); }
  }

  lemma PopKept<T>(s: State<T>, a: Action<T>, s': State<T>)
    requires ChainOk(s) && LinksOk(s) && PushesOk(s) && PopOk(s) && Moves(s, a, s') && ChainOk(s')
    ensures PopOk(s')
  {
  }

  lemma UnpublishedKept<T>(s: State<T>, a: Action<T>, s': State<T>, r: Ref)
    requires Moves(s, a, s') && Unpublished(s.m, r)
    requires a.Exchange? ==> s.m.pushes[a.pid].node != r
    ensures Unpublished(s'.m, r)
  {
    var pid :| pid in s.m.pushes && s.m.pushes[pid] == Allocated(r);
    assert s'.m.pushes[pid] == Allocated(r);
  }

  lemma MemoryKept<T>(s: State<T>, a: Action<T>, s': State<T>)
    requires ChainOk(s) && PushesOk(s) && PopOk(s) && MemoryOk(s) && Moves(s, a, s')
    ensures MemoryOk(s')
  {
    if a.Exchange? || a.Link? { assert PushOk(s, s.m.pushes[a.pid]); }
    forall r | r in s'.m.heap
      ensures r in s'.h.chain || Unpublished(s'.m, r) || (s'.m.pop.Advanced? && s'.m.pop.spent == r)
    {
      if a.Allocate? && r == a.at {
        assert s'.m.pushes[a.pid] == Allocated(r);
      } else if a.Exchange? && r == s.m.pushes[a.pid].node {
        assert s'.h.chain[|s.h.chain|] == r;
      } else if r in s.h.chain {
        assert r == s.h.chain[0] || r in s.h.chain[1..];
      } else if Unpublished(s.m, r) {
        UnpublishedKept(s, a, s', r);
      }
    }
  }

  lemma ValuesKeptByExchange<T>(s: State<T>, a: Action<T>, s': State<T>)
    requires ChainOk(s) && PushesOk(s) && PopOk(s) && ValuesOk(s) && Moves(s, a, s') && ChainOk(s') && a.Exchange?
    ensures ValuesOk(s')
  {
    assert PushOk(s, s.m.pushes[a.pid]);
  }

  lemma ValuesKeptByLink<T>(s: State<T>, a: Action<T>, s': State<T>)
    requires ChainOk(s) && PushesOk(s) && PopOk(s) && ValuesOk(s) && Moves(s, a, s') && ChainOk(s') && a.Link?
    ensures ValuesOk(s')
  {
    assert PushOk(s, s.m.pushes[a.pid]);
  }

  lemma ValuesKeptByCall<T>(s: State<T>, a: Action<T>, s': State<T>)
    requires ChainOk(s) && ValuesOk(s) && Moves(s, a, s') && ChainOk(s') && a.Allocate?
    ensures ValuesOk(s')
  {
  }

  lemma ValuesKeptByPop<T>(s: State<T>, a: Action<T>, s': State<T>)
    requires ChainOk(s) && PopOk(s) && ValuesOk(s) && Moves(s, a, s') && ChainOk(s')
    requires a.Load? || a.Take? || a.Advance? || a.Delete?
    ensures ValuesOk(s')
  {
    match a
    case Advance => assert forall i :: 0 <= i < |s'.h.chain| ==> s'.h.chain[i] == s.h.chain[i + 1];
    case _ =>
  }

  lemma ValuesKept<T>(s: State<T>, a: Action<T>, s': State<T>)
    requires ChainOk(s) && PushesOk(s) && PopOk(s) && ValuesOk(s) && Moves(s, a, s') && ChainOk(s')
    ensures ValuesOk(s')
  {
    hide ChainOk, PushesOk, PopOk, ValuesOk, Step, Observe;
    match a
    case Allocate(_, _, _) => ValuesKeptByCall(s, a, s');
    case Exchange(_) => ValuesKeptByExchange(s, a, s');
    case Link(_) => ValuesKeptByLink(s, a, s');
    case _ => ValuesKeptByPop(s, a, s');
  }

  /** A step other than a call and an exchange leaves a producer's pending value alone. */
  lemma PendingKept<T>(s: State<T>, a: Action<T>, s': State<T>, pid: Pid)
    requires ChainOk(s) && PushesOk(s) && PopOk(s) && Moves(s, a, s') && !a.Allocate? && !a.Exchange?
    ensures Pending(s'.m, pid) == Pending(s.m, pid)
  {
    if pid in s.m.pushes { assert PushOk(s, s.m.pushes[pid]); }
    if a.Link? { assert PushOk(s, s.m.pushes[a.pid]); }
    if a.Take? { assert s.m.pop.next in s.h.chain; }
  }

  lemma CallKeepsOrder<T>(s: State<T>, a: Action<T>, s': State<T>, pid: Pid)
    requires PushesOk(s) && ProgramOrderOk(s) && Moves(s, a, s') && a.Allocate?
    ensures By(s'.h.begun, pid) == By(s'.h.order, pid) + Pending(s'.m, pid)
  {
    if pid in s.m.pushes { assert PushOk(s, s.m.pushes[pid]); }
    assert s'.h.begun[..|s'.h.begun| - 1] == s.h.begun;
  }

  lemma ExchangeKeepsOrder<T>(s: State<T>, a: Action<T>, s': State<T>, pid: Pid)
    requires PushesOk(s) && ProgramOrderOk(s) && Moves(s, a, s') && a.Exchange?
    ensures By(s'.h.begun, pid) == By(s'.h.order, pid) + Pending(s'.m, pid)
  {
    if pid in s.m.pushes { assert PushOk(s, s.m.pushes[pid]); }
    assert PushOk(s, s.m.pushes[a.pid]);
    assert s'.h.order[..|s'.h.order| - 1] == s.h.order;
  }

  lemma ProgramOrderKept<T>(s: State<T>, a: Action<T>, s': State<T>)
    requires ChainOk(s) && PushesOk(s) && PopOk(s) && ProgramOrderOk(s) && Moves(s, a, s')
    ensures ProgramOrderOk(s')
  {
    forall pid ensures By(s'.h.begun, pid) == By(s'.h.order, pid) + Pending(s'.m, pid) {
      if a.Allocate? {
        CallKeepsOrder(s, a, s', pid);
      } else if a.Exchange? {
        ExchangeKeepsOrder(s, a, s', pid);
      } else {
        PendingKept(s, a, s', pid);
        hide Step, Pending, PushesOk, PopOk, ChainOk;
      }
    }
  }

  lemma NoFault<T>(s: State<T>, a: Action<T>)
    requires ChainOk(s) && PushesOk(s) && PopOk(s)
    ensures Step(s.m, a) != Fault
  {
  }

  /** No enabled step of any thread touches a freed node, and every one of them keeps the invariant. */
  lemma StepIsSafe<T>(s: State<T>, a: Action<T>)
    requires Inv(s)
    ensures Step(s.m, a) != Fault
    ensures Step(s.m, a).Next? ==> Inv(State(Step(s.m, a).value, Observe(s.m, s.h, a)))
  {
    NoFault(s, a);
    if Step(s.m, a).Next? {
      var s' := State(Step(s.m, a).value, Observe(s.m, s.h, a));
      ChainKept(s, a, s');
      LinksKept(s, a, s');
      PushesKept(s, a, s');
      PopKept(s, a, s');
      MemoryKept(s, a, s');
      ValuesKept(s, a, s');
      ProgramOrderKept(s, a, s');
    }
  }

  lemma {:induction false} RunIsSafe<T>(s: State<T>, actions: seq<Action<T>>)
    requires Inv(s)
    ensures Run(s, actions) != Fault
    ensures Run(s, actions).Next? ==> Inv(Run(s, actions).value)
    decreases |actions|
  {
    if actions != [] {
      StepIsSafe(s, actions[0]);
      match Step(s.m, actions[0])
      case Next(m') => RunIsSafe(State(m', Observe(s.m, s.h, actions[0])), actions[1..]);
      case _ =>
    }
  }

  lemma StartIsGood<T>(stub: Ref)
    ensures Inv(Start<T>(stub))
  {
  }

  // ---------------------------------------------------------------- what every run delivers

  /** The push calls a schedule makes, in the order it makes them. */
  function Calls<T>(actions: seq<Action<T>>): seq<(Pid, T)> {
    if actions == [] then []
    else (if actions[0].Allocate? then [(actions[0].pid, actions[0].value)] else []) + Calls(actions[1..])
  }

  lemma {:induction false} BegunIsCalls<T>(s: State<T>, actions: seq<Action<T>>)
    requires Run(s, actions).Next?
    ensures Run(s, actions).value.h.begun == s.h.begun + Calls(actions)
    decreases |actions|
  {
    if actions != [] {
      var s' := State(Step(s.m, actions[0]).value, Observe(s.m, s.h, actions[0]));
      BegunIsCalls(s', actions[1..]);
    }
  }

  /**
   Whatever the interleaving: nothing faults; the values returned are exactly the first ones in the
   order of the exchanges of `head`; and each producer's exchanges are the first of its calls, in order.
   */
  lemma DeliversInExchangeOrder<T>(stub: Ref, actions: seq<Action<T>>)
    ensures Run(Start<T>(stub), actions) != Fault
    ensures Run(Start<T>(stub), actions).Next? ==>
      var h := Run(Start<T>(stub), actions).value.h;
      && |h.popped| <= |h.order|
      && (forall i :: 0 <= i < |h.popped| ==> h.popped[i] == Some(h.order[i].1))
      && (forall pid :: By(h.order, pid) <= By(Calls(actions), pid))
  {
    StartIsGood<T>(stub);
    RunIsSafe(Start<T>(stub), actions);
    if Run(Start<T>(stub), actions).Next? {
      BegunIsCalls(Start<T>(stub), actions);
      assert [] + Calls(actions) == Calls(actions);
    }
  }

  lemma {:induction false} ByAppends<T>(a: seq<(Pid, T)>, b: seq<(Pid, T)>, pid: Pid)
    ensures By(a + b, pid) == By(a, pid) + By(b, pid)
  {
    if b == [] {
      assert a + b == a;
    } else {
      var last := |b| - 1;
      assert (a + b)[..|a + b| - 1] == a + b[..last];
      ByAppends(a, b[..last], pid);
    }
  }

  lemma {:induction false} RunInTwoParts<T>(s: State<T>, first: seq<Action<T>>, rest: seq<Action<T>>)
    requires Run(s, first + rest).Next?
    ensures Run(s, first).Next? && Run(s, first + rest) == Run(Run(s, first).value, rest)
    decreases |first|
  {
    if first == [] {
      assert first + rest == rest;
    } else {
      assert (first + rest)[0] == first[0] && (first + rest)[1..] == first[1..] + rest;
      RunInTwoParts(State(Step(s.m, first[0]).value, Observe(s.m, s.h, first[0])), first[1..], rest);
    }
  }

  lemma {:induction false} OrderGrows<T>(s: State<T>, actions: seq<Action<T>>)
    requires Run(s, actions).Next?
    ensures s.h.order <= Run(s, actions).value.h.order
    decreases |actions|
  {
    if actions != [] {
      OrderGrows(State(Step(s.m, actions[0]).value, Observe(s.m, s.h, actions[0])), actions[1..]);
    }
  }

  lemma SameFront<T>(a: seq<T>, b: seq<T>, c: seq<T>)
    requires a + b == a + c
    ensures b == c
  {
    assert b == (a + b)[|a|..] == (a + c)[|a|..] == c;
  }

  lemma LaterExchanges<T>(s: State<T>, s': State<T>, calls: seq<(Pid, T)>, pid: Pid)
    requires ProgramOrderOk(s) && ProgramOrderOk(s')
    requires s.h.order <= s'.h.order && s'.h.begun == s.h.begun + calls
    ensures By(s'.h.order[|s.h.order|..], pid) + Pending(s'.m, pid) == Pending(s.m, pid) + By(calls, pid)
  {
    var later := s'.h.order[|s.h.order|..];
    assert s'.h.order == s.h.order + later;
    ByAppends(s.h.order, later, pid);
    ByAppends(s.h.begun, calls, pid);
    hide By, Pending;
    var front, a, b := By(s.h.order, pid), Pending(s.m, pid) + By(calls, pid), By(later, pid) + Pending(s'.m, pid);
    assert By(s'.h.begun, pid) == front + a;
    assert By(s'.h.begun, pid) == front + b;
    SameFront(front, a, b);
  }

  /**
   A push that returned before another was called comes first, whoever the producers are. At any moment of a
   run, all that was called so far has had its exchange, but for the pending value of a call in progress; and
   what has its exchange later is such a pending value or was called later.
   */
  lemma ReturnedComesFirst<T>(stub: Ref, first: seq<Action<T>>, rest: seq<Action<T>>, pid: Pid)
    requires Run(Start<T>(stub), first + rest).Next?
    ensures Run(Start<T>(stub), first).Next?
    ensures var s1, s2 := Run(Start<T>(stub), first).value, Run(Start<T>(stub), first + rest).value;
      && By(Calls(first), pid) == By(s1.h.order, pid) + Pending(s1.m, pid)
      && (pid !in s1.m.pushes ==> Pending(s1.m, pid) == [])
      && s1.h.order <= s2.h.order
      && By(s2.h.order[|s1.h.order|..], pid) <= Pending(s1.m, pid) + By(Calls(rest), pid)
  {
    var s0 := Start<T>(stub);
    StartIsGood<T>(stub);
    assert s0.h.begun == [];
    hide Start, Run, Calls, By, ChainOk, LinksOk, PushesOk, PopOk, MemoryOk, ValuesOk, Step;
    RunInTwoParts(s0, first, rest);
    RunIsSafe(s0, first);
    BegunIsCalls(s0, first);
    assert [] + Calls(first) == Calls(first);
    var s1 := Run(s0, first).value;
    RunIsSafe(s1, rest);
    BegunIsCalls(s1, rest);
    OrderGrows(s1, rest);
    hide Inv, ProgramOrderOk;
    LaterExchanges(s1, Run(s1, rest).value, Calls(rest), pid);
  }

  /** What `empty()` reads, and what decides whether `tryPop` returns a value. */
  predicate SeesNothing<T>(m: Machine<T>)
    requires m.tail in m.heap
  {
    m.heap[m.tail].next == None
  }

  /**
   The consumer sees an empty queue exactly when every exchanged value has been taken, or when the
   oldest push not yet taken is between its exchange and its link.
   */
  lemma SeesNothingExactly<T>(s: State<T>)
    requires Inv(s) && s.m.pop.Ready?
    ensures SeesNothing(s.m) <==> |s.h.popped| == |s.h.order| || HalfDone(s.m, s.m.tail, s.h.chain[1])
  {
  }

  /**
   A push stopped between its exchange and its link hides one that came after it and has returned: two
   values are in the queue, one of them from a complete push, and the consumer sees nothing.
   */
  lemma HalfDonePushHidesLaterOnes()
    ensures var out := Run(Start<int>(0), [Allocate(0, 1, 10), Exchange(0), Allocate(1, 2, 20), Exchange(1), Link(1)]);
      && out.Next? && 0 in out.value.m.pushes && 1 !in out.value.m.pushes
      && out.value.h.order == [(0, 10), (1, 20)] && out.value.h.popped == []
      && out.value.m.tail in out.value.m.heap && SeesNothing(out.value.m)
  {
    var actions: seq<Action<int>> := [Allocate(0, 1, 10), Exchange(0), Allocate(1, 2, 20), Exchange(1), Link(1)];
    var s0 := Start<int>(0);
    var s1 := State(Step(s0.m, actions[0]).value, Observe(s0.m, s0.h, actions[0]));
    var s2 := State(Step(s1.m, actions[1]).value, Observe(s1.m, s1.h, actions[1]));
    var s3 := State(Step(s2.m, actions[2]).value, Observe(s2.m, s2.h, actions[2]));
    var s4 := State(Step(s3.m, actions[3]).value, Observe(s3.m, s3.h, actions[3]));
    var s5 := State(Step(s4.m, actions[4]).value, Observe(s4.m, s4.h, actions[4]));
    assert Run(s4, actions[1..][1..][1..][1..]) == Run(s5, []) == Next(s5);
    assert Run(s2, actions[1..][1..]) == Run(s3, actions[1..][1..][1..]);
    assert Run(s0, actions) == Run(s1, actions[1..]);
  }

  ghost predicate Settled<T>(m: Machine<T>) {
    m.pop.Ready? && forall pid :: pid in m.pushes ==> !m.pushes[pid].Exchanged?
  }

  /** With no push half done, `empty()` is true exactly when as many values were popped as exchanged. */
  lemma EmptyExactly<T>(s: State<T>)
    requires Inv(s) && Settled(s.m)
    ensures SeesNothing(s.m) <==> |s.h.popped| == |s.h.order|
  {
    SeesNothingExactly(s);
  }

  function Pops<T>(n: nat): seq<Action<T>> {
    if n == 0 then [] else [Load] + ([Take] + ([Advance] + ([Delete] + Pops(n - 1))))
  }

  /** One step of the consumer's `tryPop`, when there is something to pop. */
  lemma PopStep<T>(s: State<T>, a: Action<T>, rest: seq<Action<T>>) returns (s': State<T>)
    requires Inv(s)
    requires (a.Load? && s.m.pop.Ready? && !SeesNothing(s.m)) || (a.Take? && s.m.pop.Loaded?)
          || (a.Advance? && s.m.pop.Taken?) || (a.Delete? && s.m.pop.Advanced?)
    ensures Inv(s') && Run(s, [a] + rest) == Run(s', rest)
    ensures s'.m.pushes == s.m.pushes && s'.h.order == s.h.order
    ensures s'.h.popped == s.h.popped + if a.Delete? then [s.m.pop.value] else []
    ensures match a
      case Load => s'.m.pop.Loaded?
      case Take => s'.m.pop.Taken?
      case Advance => s'.m.pop.Advanced?
      case _ => s'.m.pop.Ready?
  {
    NoFault(s, a);
    s' := State(Step(s.m, a).value, Observe(s.m, s.h, a));
    assert ([a] + rest)[1..] == rest;
    hide Inv;
    StepIsSafe(s, a);
  }

  lemma OnePop<T>(s: State<T>, rest: seq<Action<T>>) returns (s': State<T>)
    requires Inv(s) && Settled(s.m) && |s.h.popped| < |s.h.order|
    ensures Inv(s') && Settled(s'.m) && s'.h.order == s.h.order && |s'.h.popped| == |s.h.popped| + 1
    ensures Run(s, [Load] + ([Take] + ([Advance] + ([Delete] + rest)))) == Run(s', rest)
  {
    EmptyExactly(s);
    hide Inv, Run;
    var s1 := PopStep(s, Load, [Take] + ([Advance] + ([Delete] + rest)));
    var s2 := PopStep(s1, Take, [Advance] + ([Delete] + rest));
    var s3 := PopStep(s2, Advance, [Delete] + rest);
    s' := PopStep(s3, Delete, rest);
  }

  /** Once no push is half done, popping delivers every outstanding value and leaves the queue empty. */
  lemma {:induction false} DrainsCompletely<T>(s: State<T>)
    requires Inv(s) && Settled(s.m)
    ensures |s.h.popped| <= |s.h.order|
    ensures var out := Run(s, Pops(|s.h.order| - |s.h.popped|));
      && out.Next? && SeesNothingIn(out.value)
      && out.value.h.order == s.h.order
      && out.value.h.popped == seq(|s.h.order|, i requires 0 <= i < |s.h.order| => Some(s.h.order[i].1))
    decreases |s.h.order| - |s.h.popped|
  {
    EmptyExactly(s);
    var n := |s.h.order| - |s.h.popped|;
    if n > 0 {
      var s' := OnePop(s, Pops(n - 1));
      DrainsCompletely(s');
    }
  }

  ghost predicate SeesNothingIn<T>(s: State<T>) {
    s.m.tail in s.m.heap && SeesNothing(s.m)
  }

  /** A push that runs from call to return without another thread in between. */
  function Pushed<T>(s: State<T>, pid: Pid, node: Ref, value: T): State<T>
    requires s.m.head in s.m.heap
  {
    var heap := s.m.heap[node := Node(Some(value), None)];
    State(s.m.(heap := heap[s.m.head := heap[s.m.head].(next := Some(node))], head := node),
          History(s.h.chain + [node], s.h.begun + [(pid, value)], s.h.order + [(pid, value)], s.h.popped))
  }

  lemma PushRuns<T>(s: State<T>, pid: Pid, node: Ref, value: T)
    requires s.m.head in s.m.heap && pid !in s.m.pushes && node !in s.m.heap
    ensures Run(s, [Allocate(pid, node, value), Exchange(pid), Link(pid)]) == Next(Pushed(s, pid, node, value))
  {
    var actions := [Allocate(pid, node, value), Exchange(pid), Link(pid)];
    assert actions[1..] == [Exchange(pid), Link(pid)] && actions[1..][1..] == [Link(pid)];
    var s1 := State(Step(s.m, actions[0]).value, Observe(s.m, s.h, actions[0]));
    var s2 := State(Step(s1.m, Exchange(pid)).value, Observe(s1.m, s1.h, Exchange(pid)));
    var s3 := State(Step(s2.m, Link(pid)).value, Observe(s2.m, s2.h, Link(pid)));
    assert s3 == Pushed(s, pid, node, value) by { assert s3.m.pushes == s.m.pushes; }
    assert Run(s1, [Exchange(pid), Link(pid)]) == Run(s2, [Link(pid)]) == Next(s3);
  }

  lemma WholePush<T>(s: State<T>, pid: Pid, node: Ref, value: T)
    requires Inv(s) && pid !in s.m.pushes && node !in s.m.heap
    ensures s.m.head in s.m.heap && s.m.head != node && Inv(Pushed(s, pid, node, value))
  {
    assert s.m.head == s.h.chain[|s.h.chain| - 1];
    PushRuns(s, pid, node, value);
    RunIsSafe(s, [Allocate(pid, node, value), Exchange(pid), Link(pid)]);
  }

  /** A `tryPop` that finds a linked node and runs to its return. */
  function Popped<T>(s: State<T>, next: Ref): State<T>
    requires next in s.m.heap
  {
    State(s.m.(heap := s.m.heap[next := s.m.heap[next].(value := None)] - {s.m.tail}, tail := next),
          s.h.(chain := if s.h.chain == [] then [] else s.h.chain[1..], popped := s.h.popped + [s.m.heap[next].value]))
  }

  lemma PopRuns<T>(s: State<T>, next: Ref)
    requires s.m.pop.Ready? && s.m.tail in s.m.heap && s.m.heap[s.m.tail].next == Some(next)
    requires next in s.m.heap && next != s.m.tail
    ensures Run(s, [Load, Take, Advance, Delete]) == Next(Popped(s, next))
  {
  }

  lemma WholePop<T>(s: State<T>)
    requires Inv(s) && s.m.pop.Ready? && !SeesNothing(s.m)
    ensures |s.h.popped| < |s.h.order|
    ensures var next := s.m.heap[s.m.tail].next.value;
      && next in s.m.heap && next != s.m.tail && s.m.heap[next].value == Some(s.h.order[|s.h.popped|].1)
      && Inv(Popped(s, next))
  {
    SeesNothingExactly(s);
    assert s.h.chain[0] != s.h.chain[1];
    PopRuns(s, s.m.heap[s.m.tail].next.value);
    RunIsSafe(s, [Load, Take, Advance, Delete]);
  }

  lemma TailIsLive<T>(s: State<T>)
    requires Inv(s)
    ensures s.m.tail in s.m.heap && s.h.chain != []
  {
  }

  lemma OnlyTheChainIsLive<T>(s: State<T>)
    requires Inv(s) && s.m.pop.Ready? && s.m.pushes == map[]
    ensures var c := s.h.chain;
      && |c| > 0 && c[0] == s.m.tail && (forall i, j :: 0 <= i < j < |c| ==> c[i] != c[j])
      && (forall r :: r in s.m.heap <==> r in c)
      && (forall i :: 0 <= i < |c| ==> s.m.heap[c[i]].next == if i + 1 < |c| then Some(c[i + 1]) else None)
  {
  }

  // ---------------------------------------------------------------- the class

  /**
   The queue object. `pushes` and `pop` stand for the local variables of the calls in progress, so a
   method here may run while any number of other producers are stopped anywhere inside `push`.
   */
  class Queue<T> {
    var heap: map<Ref, Node<T>>
    var head: Ref
    var tail: Ref
    ghost var pushes: map<Pid, Push>
    ghost var pop: Pop<T>
    ghost var history: History<T>

    ghost function Snapshot(): State<T>
      reads this
    {
      State(Machine(heap, head, tail, pushes, pop), history)
    }

    ghost predicate Valid()
      reads this
    {
      Inv(Snapshot())
    }

    constructor (stub: Ref)
      ensures Valid() && Snapshot() == Start(stub)
    {
      heap := map[stub := Node(None, None)];
      head := stub;
      tail := stub;
      pushes := map[];
      pop := Ready;
      history := Start<T>(stub).h;
      new;
      StartIsGood<T>(stub);
    }

    method Push(ghost pid: Pid, node: Ref, value: T)
      requires Valid() && pid !in pushes && node !in heap
      modifies this
      ensures Valid()
      ensures old(head in heap) && Snapshot() == Pushed(old(Snapshot()), pid, node, value)
    {
      WholePush(Snapshot(), pid, node, value);
      ghost var after := Pushed(Snapshot(), pid, node, value);
      hide Inv;
      heap := heap[node := Node(Some(value), None)];
      var prev := head;
      head := node;
      heap := heap[prev := heap[prev].(next := Some(node))];
      history := after.h;
    }

    method TryPop() returns (result: Option<T>)
      requires Valid() && pop.Ready?
      modifies this
      ensures Valid() && pop.Ready? && pushes == old(pushes) && head == old(head)
      ensures history.order == old(history.order)
      ensures result == None <==>
        old(|history.popped| == |history.order| || HalfDone(Snapshot().m, tail, history.chain[1]))
      ensures result.None? ==> Snapshot() == old(Snapshot())
      ensures result.Some? ==>
        && history.popped == old(history.popped) + [result]
        && result == Some(history.order[old(|history.popped|)].1)
        && old(tail in heap && heap[tail].next.Some? && heap[tail].next.value in heap)
        && Snapshot() == Popped(old(Snapshot()), old(heap[tail].next.value))
    {
      TailIsLive(Snapshot());
      hide Inv, HalfDone;
      SeesNothingExactly(Snapshot());
      if heap[tail].next == None {
        return None;
      }
      WholePop(Snapshot());
      ghost var after := Popped(Snapshot(), heap[tail].next.value);
      var next := heap[tail].next.value;
      result := heap[next].value;
      heap := heap[next := heap[next].(value := None)];
      var spent := tail;
      tail := next;
      heap := heap - {spent};
      history := after.h;
      assert Snapshot() == after;
    }

    method Empty() returns (empty: bool)
      requires Valid() && pop.Ready?
      ensures empty <==> |history.popped| == |history.order| || HalfDone(Snapshot().m, tail, history.chain[1])
    {
      SeesNothingExactly(Snapshot());
      empty := heap[tail].next == None;
    }

    /** The destructor: with no call in progress it frees every node, each once. */
    method Destroy()
      requires Valid() && pop.Ready? && pushes == map[]
      modifies this`heap
      ensures heap == map[]
    {
      OnlyTheChainIsLive(Snapshot());
      DeleteChain(Some(tail), history.chain);
    }

    /** The destructor's walk along a chain of distinct nodes that are all there is. */
    method DeleteChain(first: Option<Ref>, ghost chain: seq<Ref>)
      requires first == if chain == [] then None else Some(chain[0])
      requires forall i, j :: 0 <= i < j < |chain| ==> chain[i] != chain[j]
      requires forall r :: r in heap <==> r in chain
      requires forall i :: 0 <= i < |chain| ==>
                 heap[chain[i]].next == (if i + 1 < |chain| then Some(chain[i + 1]) else None)
      modifies this`heap
      ensures heap == map[]
    {
      ghost var start, k := heap, 0;
      var node := first;
      while node != None
        invariant 0 <= k <= |chain|
        invariant node == if k < |chain| then Some(chain[k]) else None
        invariant forall i :: k <= i < |chain| ==> chain[i] in heap
        invariant forall r :: r in heap ==> r in start && heap[r] == start[r] && r in chain && r !in chain[..k]
        decreases |chain| - k
      {
        var next := heap[node.value].next;
        assert next == if k + 1 < |chain| then Some(chain[k + 1]) else None;
        heap := heap - {node.value};
        assert chain[..k + 1] == chain[..k] + [chain[k]];
        node, k := next, k + 1;
      }
    }
  }
}
