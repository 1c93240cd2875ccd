/**
  The workload and node tables as a state machine: one event per SQL transaction of the store.

  A transaction that returns an error is rolled back, so its event leaves the tables as they were.
  `Lawful` says in which row states the control plane issues each transaction; that the loops of the
  scheduler, executor, reconcilers and controllers keep to it is proved where those loops are.
 */
module Ledger {
  import opened Model
  import opened Tables

  datatype Cluster = Cluster(nodes: NodeRows, workloads: Rows)

  datatype Event =
    | Create(row: Workload)
    | Reserve(id: WorkloadId, node: NodeId, cpu: nat, memory: nat)
    | MarkRunning(id: WorkloadId, container: ContainerId)
    | FailAndRelease(id: WorkloadId)
    | StopAndRelease(id: WorkloadId)
    | Recover(node: NodeId)
    | SetDesired(id: WorkloadId, state: WorkloadState)
    | SetActual(id: WorkloadId, state: WorkloadState)
    | Register(node: NodeId, cpuCapacity: pos, memoryCapacity: pos, status: NodeStatus)
    | SetNodeStatus(node: NodeId, status: NodeStatus)

  // ---- Transactions ----

  /** `GREATEST(x - y, 0)` */
  function Monus(x: nat, y: nat): nat {
    if x >= y then x - y else 0
  }

  function Credit(nodes: NodeRows, w: Workload): NodeRows {
    if w.node.Some? && w.node.value in nodes then
      var n := nodes[w.node.value];
      nodes[w.node.value := n.(cpuAllocated := Monus(n.cpuAllocated, w.cpu),
                               memoryAllocated := Monus(n.memoryAllocated, w.memory))]
    else nodes
  }

  function ResetIfOn(w: Workload, n: NodeId): Workload {
    if w.node != Some(n) then w
    else if InUse(w.actual) then
      w.(node := None, container := None, desired := Pending, actual := Pending, held := false)
    else w.(held := false)
  }

  /** Row `id` gives its request back and ends in state `s`. */
  function Released(t: Cluster, id: WorkloadId, s: WorkloadState): Cluster
    requires id in t.workloads
  {
    var w := t.workloads[id];
    Cluster(Credit(t.nodes, w), t.workloads[id := w.(actual := s, held := false)])
  }

  /** Whether the transaction commits. */
  predicate Commits(t: Cluster, e: Event) {
    match e
    case Create(row) => row.id !in t.workloads
    case Reserve(id, n, cpu, memory) =>
      n in t.nodes && t.nodes[n].status.Ready? && t.nodes[n].Fits(cpu, memory) && id in t.workloads
    case MarkRunning(id, _) => id in t.workloads && t.workloads[id].desired.Scheduled?
    case FailAndRelease(id) =>
      id in t.workloads &&
      (t.workloads[id].actual.Failed? || t.workloads[id].node.None? || t.workloads[id].node.value in t.nodes)
    case StopAndRelease(id) => id in t.workloads
    case SetNodeStatus(n, _) => n in t.nodes
    case _ => true
  }

  function Step(t: Cluster, e: Event): Cluster {
    if !Commits(t, e) then t else
    match e
    case Create(row) => t.(workloads := t.workloads[row.id := row])
    case Reserve(id, n, cpu, memory) =>
      var node := t.nodes[n];
      Cluster(
        t.nodes[n := node.(cpuAllocated := node.cpuAllocated + cpu, memoryAllocated := node.memoryAllocated + memory)],
        t.workloads[id := t.workloads[id].(node := Some(n), desired := Scheduled, held := true)])
    case MarkRunning(id, c) =>
      t.(workloads := t.workloads[id := t.workloads[id].(container := Some(c), actual := Running)])
    case FailAndRelease(id) =>
      if t.workloads[id].actual.Failed? then t else Released(t, id, Failed)
    case StopAndRelease(id) =>
      if t.workloads[id].actual.Stopped? then t else Released(t, id, Stopped)
    case Recover(n) =>
      Cluster(
        if n in t.nodes then t.nodes[n := t.nodes[n].(cpuAllocated := 0, memoryAllocated := 0)] else t.nodes,
        map id | id in t.workloads :: ResetIfOn(t.workloads[id], n))
    case SetDesired(id, s) =>
      if id in t.workloads then t.(workloads := t.workloads[id := t.workloads[id].(desired := s)]) else t
    case SetActual(id, s) =>
      if id in t.workloads then t.(workloads := t.workloads[id := t.workloads[id].(actual := s)]) else t
    case Register(n, cpu, memory, status) =>
      t.(nodes := t.nodes[n :=
        if n in t.nodes then t.nodes[n].(cpuCapacity := cpu, memoryCapacity := memory, status := status)
        else Node(cpu, memory, 0, 0, status)])
    case SetNodeStatus(n, status) => t.(nodes := t.nodes[n := t.nodes[n].(status := status)])
  }

  // ---- What each transaction writes, column by column ----

  lemma CreateWrites(t: Cluster, w: Workload)
    ensures Step(t, Create(w)).nodes == t.nodes
    ensures Step(t, Create(w)).workloads == if w.id in t.workloads then t.workloads else t.workloads[w.id := w]
  {
  }

  /** A reservation needs a ready node with the room, and charges it with what the row is assigned for. */
  lemma ReserveWrites(t: Cluster, id: WorkloadId, n: NodeId, cpu: nat, memory: nat)
    ensures var room := n in t.nodes && t.nodes[n].status == Ready
                     && t.nodes[n].cpuAllocated + cpu <= t.nodes[n].cpuCapacity
                     && t.nodes[n].memoryAllocated + memory <= t.nodes[n].memoryCapacity;
      if room && id in t.workloads then
        var m, w := t.nodes[n], t.workloads[id];
        Step(t, Reserve(id, n, cpu, memory)) == Cluster(
          t.nodes[n := Node(m.cpuCapacity, m.memoryCapacity,
                            m.cpuAllocated + cpu, m.memoryAllocated + memory, m.status)],
          t.workloads[id := Workload(w.id, w.service, Some(n), w.container, w.image, w.cpu, w.memory, w.version,
                                     Scheduled, w.actual, true)])
      else !Commits(t, Reserve(id, n, cpu, memory)) && Step(t, Reserve(id, n, cpu, memory)) == t
  {
  }

  lemma MarkRunningWrites(t: Cluster, id: WorkloadId, c: ContainerId)
    ensures if id in t.workloads && t.workloads[id].desired == Scheduled then
        var w := t.workloads[id];
        Step(t, MarkRunning(id, c)) == Cluster(t.nodes,
          t.workloads[id := Workload(w.id, w.service, w.node, Some(c), w.image, w.cpu, w.memory, w.version,
                                     w.desired, Running, w.held)])
      else !Commits(t, MarkRunning(id, c)) && Step(t, MarkRunning(id, c)) == t
  {
  }

  /** What is left of an allocation when a request is given back: never less than nothing. */
  predicate Remains(left: nat, allocation: nat, request: nat) {
    if request <= allocation then left + request == allocation else left == 0
  }

  /** The node of the row has both requests given back, and nothing else of any node changes. */
  predicate GivenBack(before: NodeRows, after: NodeRows, w: Workload) {
    if w.node.Some? && w.node.value in before then
      var n := w.node.value;
      && n in after && after == before[n := after[n]]
      && Remains(after[n].cpuAllocated, before[n].cpuAllocated, w.cpu)
      && Remains(after[n].memoryAllocated, before[n].memoryAllocated, w.memory)
      && after[n].cpuCapacity == before[n].cpuCapacity && after[n].memoryCapacity == before[n].memoryCapacity
      && after[n].status == before[n].status
    else after == before
  }

  /** A release writes the one new state and gives the requests back, once per entry into that state. */
  lemma ReleaseWrites(t: Cluster, id: WorkloadId, s: WorkloadState)
    requires s == Failed || s == Stopped
    ensures var e := if s == Failed then FailAndRelease(id) else StopAndRelease(id);
      if id !in t.workloads || t.workloads[id].actual == s then Step(t, e) == t
      else
        var w := t.workloads[id];
        if s == Failed && w.node.Some? && w.node.value !in t.nodes then !Commits(t, e) && Step(t, e) == t
        else
          && GivenBack(t.nodes, Step(t, e).nodes, w)
          && Step(t, e).workloads ==
             t.workloads[id := Workload(w.id, w.service, w.node, w.container, w.image, w.cpu, w.memory, w.version,
                                        w.desired, s, false)]
  {
  }

  /** A recovery empties the node and sends what was in use there back to be placed anew. */
  lemma RecoverWrites(t: Cluster, n: NodeId, id: WorkloadId)
    requires id in t.workloads
    ensures var w, after := t.workloads[id], Step(t, Recover(n));
      && after.workloads.Keys == t.workloads.Keys && after.nodes.Keys == t.nodes.Keys
      && (n in t.nodes ==> after.nodes == t.nodes[n :=
            Node(t.nodes[n].cpuCapacity, t.nodes[n].memoryCapacity, 0, 0, t.nodes[n].status)])
      && after.workloads[id] ==
           if w.node != Some(n) then w
           else if w.actual == Pending || w.actual == Scheduled || w.actual == Running then
             Workload(w.id, w.service, None, None, w.image, w.cpu, w.memory, w.version, Pending, Pending, false)
           else w.(held := false)
  {
  }

  lemma StateWrites(t: Cluster, id: WorkloadId, s: WorkloadState)
    requires id in t.workloads
    ensures var w := t.workloads[id];
      && Step(t, SetDesired(id, s)) == Cluster(t.nodes,
           t.workloads[id := Workload(w.id, w.service, w.node, w.container, w.image, w.cpu, w.memory, w.version,
                                      s, w.actual, w.held)])
      && Step(t, SetActual(id, s)) == Cluster(t.nodes,
           t.workloads[id := Workload(w.id, w.service, w.node, w.container, w.image, w.cpu, w.memory, w.version,
                                      w.desired, s, w.held)])
  {
  }

  /** A registration sets capacities and status, and keeps what is allocated; a new node has nothing allocated. */
  lemma NodeWrites(t: Cluster, n: NodeId, cpu: pos, memory: pos, status: NodeStatus)
    ensures Step(t, Register(n, cpu, memory, status)) ==
      Cluster(t.nodes[n := if n in t.nodes
                           then Node(cpu, memory, t.nodes[n].cpuAllocated, t.nodes[n].memoryAllocated, status)
                           else Node(cpu, memory, 0, 0, status)], t.workloads)
    ensures if n in t.nodes then
        Step(t, SetNodeStatus(n, status)) == Cluster(t.nodes[n :=
          Node(t.nodes[n].cpuCapacity, t.nodes[n].memoryCapacity,
               t.nodes[n].cpuAllocated, t.nodes[n].memoryAllocated, status)], t.workloads)
      else !Commits(t, SetNodeStatus(n, status)) && Step(t, SetNodeStatus(n, status)) == t
  {
  }

  // ---- Runs ----

  function Run(t: Cluster, es: seq<Event>): Cluster {
    if |es| == 0 then t else Step(Run(t, es[..|es| - 1]), es[|es| - 1])
  }

  ghost predicate Unused(rows: Rows, c: ContainerId) {
    forall id :: id in rows ==> rows[id].container != Some(c)
  }

  /**
    The row states in which the control plane issues each transaction. A container that is recorded is a new
    one: node agents never hand out an id twice.
   */
  ghost predicate Lawful(t: Cluster, e: Event) {
    match e
    case Create(w) =>
      w.id !in t.workloads && w.node.None? && w.container.None? && w.desired.Pending? && w.actual.Pending? && !w.held
    case Reserve(id, _, cpu, memory) =>
      id in t.workloads && t.workloads[id].desired.Pending? &&
      cpu == t.workloads[id].cpu && memory == t.workloads[id].memory
    case MarkRunning(id, c) =>
      id in t.workloads && t.workloads[id].desired.Scheduled? &&
      (t.workloads[id].actual.Pending? || t.workloads[id].actual.Scheduled?) && Unused(t.workloads, c)
    case FailAndRelease(id) =>
      id in t.workloads && (t.workloads[id].container.Some? || t.workloads[id].desired.Scheduled?)
    case StopAndRelease(id) => id in t.workloads && t.workloads[id].desired.Stopped?
    case SetDesired(id, s) => id in t.workloads && InUse(t.workloads[id].actual) && s.Stopped?
    case SetActual(id, s) =>
      id in t.workloads && t.workloads[id].container.Some? &&
      (s.Running? || s.Scheduled? || (s.Stopped? && t.workloads[id].desired.Stopped?))
    case _ => true
  }

  ghost predicate LawfulRun(t: Cluster, es: seq<Event>) {
    |es| == 0 || (LawfulRun(t, es[..|es| - 1]) && Lawful(Run(t, es[..|es| - 1]), es[|es| - 1]))
  }

  lemma RunSnoc(t: Cluster, es: seq<Event>, e: Event)
    ensures Run(t, es + [e]) == Step(Run(t, es), e)
    ensures LawfulRun(t, es + [e]) <==> LawfulRun(t, es) && Lawful(Run(t, es), e)
  {
    assert (es + [e])[..|es|] == es;
  }

  lemma {:induction false} LawfulPrefix(t: Cluster, es: seq<Event>, k: nat)
    requires LawfulRun(t, es) && k <= |es|
    ensures LawfulRun(t, es[..k])
    decreases |es|
  {
    if k < |es| {
      LawfulPrefix(t, es[..|es| - 1], k);
      assert es[..|es| - 1][..k] == es[..k];
    } else {
      assert es[..k] == es;
    }
  }

  lemma PrefixStep(t: Cluster, es: seq<Event>, k: nat)
    requires k < |es|
    ensures Run(t, es[..k + 1]) == Step(Run(t, es[..k]), es[k])
    ensures LawfulRun(t, es[..k + 1]) <==> LawfulRun(t, es[..k]) && Lawful(Run(t, es[..k]), es[k])
  {
    assert es[..k + 1] == es[..k] + [es[k]];
    RunSnoc(t, es[..k], es[k]);
  }

  /** A run may be cut anywhere. */
  lemma {:induction false} RunSplits(t: Cluster, es: seq<Event>, k: nat)
    requires k <= |es|
    ensures Run(t, es) == Run(Run(t, es[..k]), es[k..])
    ensures LawfulRun(t, es) <==> LawfulRun(t, es[..k]) && LawfulRun(Run(t, es[..k]), es[k..])
    decreases |es|
  {
    if k == |es| {
      assert es[..k] == es && es[k..] == [];
    } else {
      var init := es[..|es| - 1];
      RunSplits(t, init, k);
      assert init[..k] == es[..k] && init[k..] == es[k..][..|es[k..]| - 1];
    }
  }

  // ---- The lifecycle of a row ----

  predicate Lifecycle(w: Workload) {
    && (w.desired.Pending? || w.desired.Scheduled? || w.desired.Stopped?)
    && (w.desired.Pending? ==> w.node.None? && w.container.None? && w.actual.Pending?)
    && (w.desired.Scheduled? ==> w.node.Some?)
    && (w.container.Some? ==> w.node.Some?)
    && (w.actual.Running? || w.actual.Scheduled? ==> w.container.Some?)
    && (w.actual.Pending? ==> w.container.None?)
    && (w.held ==> w.node.Some? && !w.actual.Failed?)
  }

  ghost predicate UniqueContainers(rows: Rows) {
    forall x, y :: x in rows && y in rows && x != y && rows[x].container.Some? ==>
      rows[x].container != rows[y].container
  }

  ghost predicate Sound(t: Cluster) {
    && Keyed(t.workloads) && UniqueContainers(t.workloads)
    && (forall id :: id in t.workloads ==> Lifecycle(t.workloads[id]))
    && (forall id :: id in t.workloads && t.workloads[id].node.Some? ==> t.workloads[id].node.value in t.nodes)
  }

  lemma StepKeepsUnique(t: Cluster, e: Event)
    requires UniqueContainers(t.workloads) && Lawful(t, e)
    ensures UniqueContainers(Step(t, e).workloads)
  {
    var after := Step(t, e).workloads;
    forall id | id in after && after[id].container.Some?
      ensures (id in t.workloads && t.workloads[id].container == after[id].container) ||
        (e.MarkRunning? && e.id == id && after[id].container == Some(e.container))
    {
    }
  }

  lemma StepSound(t: Cluster, e: Event)
    requires Sound(t) && Lawful(t, e)
    ensures Sound(Step(t, e))
  {
    var after := Step(t, e);
    assert t.nodes.Keys <= after.nodes.Keys;
    StepKeepsUnique(t, e);
    forall id | id in after.workloads
      ensures after.workloads[id].id == id && Lifecycle(after.workloads[id])
      ensures after.workloads[id].node.Some? ==> after.workloads[id].node.value in after.nodes
    {
      if id in t.workloads { assert Lifecycle(t.workloads[id]); }
    }
  }

  /** Every row of every reachable table obeys the lifecycle, all edges of the control plane included. */
  lemma {:induction false} RunSound(t: Cluster, es: seq<Event>)
    requires Sound(t) && LawfulRun(t, es)
    ensures Sound(Run(t, es))
    decreases |es|
  {
    if |es| > 0 {
      RunSound(t, es[..|es| - 1]);
      StepSound(Run(t, es[..|es| - 1]), es[|es| - 1]);
    }
  }

  // ---- The resource ledger ----

  /** Each node's allocation is the sum of the requests of the in-use workloads assigned to it. */
  ghost predicate Exact(t: Cluster) {
    forall n, d :: n in t.nodes ==> t.nodes[n].Allocated(d) == Sum(t.workloads, n, d, ByState)
  }

  /** No allocation exceeds the requests of the workloads that still hold a reservation. */
  ghost predicate Covered(t: Cluster) {
    forall n, d :: n in t.nodes ==> t.nodes[n].Allocated(d) <= Sum(t.workloads, n, d, ByHold)
  }

  ghost predicate WithinCapacity(t: Cluster) {
    forall n, d :: n in t.nodes ==> t.nodes[n].Allocated(d) <= t.nodes[n].Capacity(d)
  }

  /** A (re-)registration that does not lower a node's capacity below what is allocated on it. */
  predicate KeepsRoom(t: Cluster, e: Event) {
    e.Register? && e.node in t.nodes ==>
      t.nodes[e.node].cpuAllocated <= e.cpuCapacity && t.nodes[e.node].memoryAllocated <= e.memoryCapacity
  }

  predicate Emptied(t: Cluster, w: Workload) {
    w.node.Some? && w.node.value in t.nodes ==>
      t.nodes[w.node.value].cpuAllocated == 0 && t.nodes[w.node.value].memoryAllocated == 0
  }

  /**
    The guard that decides, before the transaction, whether it keeps the ledger exact: a release must find
    the row in use or already in the target state (or find nothing left to take), and a raw write of the
    actual state must not move a row between the in-use and the finished states.
   */
  predicate Clean(t: Cluster, e: Event) {
    match e
    case FailAndRelease(id) =>
      id in t.workloads ==>
        InUse(t.workloads[id].actual) || t.workloads[id].actual.Failed? || Emptied(t, t.workloads[id])
    case StopAndRelease(id) =>
      id in t.workloads ==>
        InUse(t.workloads[id].actual) || t.workloads[id].actual.Stopped? || Emptied(t, t.workloads[id])
    case SetActual(id, s) =>
      id in t.workloads ==> InUse(s) == InUse(t.workloads[id].actual)
    case _ => true
  }

  ghost predicate CleanRun(t: Cluster, es: seq<Event>) {
    forall k :: 0 <= k < |es| ==> Clean(Run(t, es[..k]), es[k])
  }

  /** The `GREATEST(..., 0)` of a release has nothing to cut off. */
  predicate ClampIdle(t: Cluster, w: Workload) {
    w.node.Some? && w.node.value in t.nodes ==>
      forall d :: w.Need(d) <= t.nodes[w.node.value].Allocated(d)
  }

  lemma ReleaseFits(t: Cluster, id: WorkloadId)
    requires Sound(t) && Exact(t) && id in t.workloads && InUse(t.workloads[id].actual)
    ensures ClampIdle(t, t.workloads[id])
  {
    var w := t.workloads[id];
    if w.node.Some? {
      forall d ensures w.Need(d) <= t.nodes[w.node.value].Allocated(d) {
        SumWithout(t.workloads, id, w.node.value, d, ByState);
      }
    }
  }

  /** A row that is charged as before may be overwritten. */
  lemma SameChargeKeeps(t: Cluster, id: WorkloadId, w: Workload)
    requires id in t.workloads
    requires w.node == t.workloads[id].node && w.cpu == t.workloads[id].cpu && w.memory == t.workloads[id].memory
    requires w.held == t.workloads[id].held
    ensures InUse(w.actual) == InUse(t.workloads[id].actual) && Exact(t) ==>
      Exact(t.(workloads := t.workloads[id := w]))
    ensures Covered(t) ==> Covered(t.(workloads := t.workloads[id := w]))
  {
    forall n, d ensures Sum(t.workloads[id := w], n, d, ByHold) == Sum(t.workloads, n, d, ByHold) {
      SumAfterWrite(t.workloads, id, w, n, d, ByHold);
    }
    if InUse(w.actual) == InUse(t.workloads[id].actual) {
      forall n, d ensures Sum(t.workloads[id := w], n, d, ByState) == Sum(t.workloads, n, d, ByState) {
        SumAfterWrite(t.workloads, id, w, n, d, ByState);
      }
    }
    hide Sum;
  }

  lemma SumAfterReserve(t: Cluster, e: Event, n: NodeId, d: Dim, b: Basis)
    requires Sound(t) && e.Reserve? && Lawful(t, e) && Commits(t, e) && n in t.nodes
    ensures Step(t, e).nodes[n].Allocated(d) - t.nodes[n].Allocated(d)
         == Sum(Step(t, e).workloads, n, d, b) - Sum(t.workloads, n, d, b)
  {
    var w := t.workloads[e.id];
    var w' := w.(node := Some(e.node), desired := Scheduled, held := true);
    SumAfterWrite(t.workloads, e.id, w', n, d, b);
    assert Charge(w, n, d, b) == 0;
    assert Charge(w', n, d, b) == if n == e.node then w.Need(d) else 0;
  }

  lemma ReserveKeeps(t: Cluster, e: Event)
    requires Sound(t) && e.Reserve? && Lawful(t, e)
    ensures Exact(t) ==> Exact(Step(t, e))
    ensures Covered(t) ==> Covered(Step(t, e))
  {
    if Commits(t, e) {
      forall n, d | n in Step(t, e).nodes
        ensures Step(t, e).nodes[n].Allocated(d) - t.nodes[n].Allocated(d)
             == Sum(Step(t, e).workloads, n, d, ByState) - Sum(t.workloads, n, d, ByState)
        ensures Step(t, e).nodes[n].Allocated(d) - t.nodes[n].Allocated(d)
             == Sum(Step(t, e).workloads, n, d, ByHold) - Sum(t.workloads, n, d, ByHold)
      {
        SumAfterReserve(t, e, n, d, ByState);
        SumAfterReserve(t, e, n, d, ByHold);
      }
    }
  }

  lemma SumsAfterRecover(t: Cluster, m: NodeId)
    requires Sound(t)
    ensures forall n, d :: Sum(Step(t, Recover(m)).workloads, n, d, ByState)
                        == if n == m then 0 else Sum(t.workloads, n, d, ByState)
    ensures forall n, d :: n != m ==> Sum(Step(t, Recover(m)).workloads, n, d, ByHold) == Sum(t.workloads, n, d, ByHold)
  {
    var after := Step(t, Recover(m)).workloads;
    forall n, d ensures Sum(after, n, d, ByState) == if n == m then 0 else Sum(t.workloads, n, d, ByState) {
      if n == m { SumOfNothing(after, n, d, ByState); } else { SumPointwise(after, t.workloads, n, d, ByState); }
    }
    forall n, d | n != m ensures Sum(after, n, d, ByHold) == Sum(t.workloads, n, d, ByHold) {
      SumPointwise(after, t.workloads, n, d, ByHold);
    }
  }

  lemma ReleaseExact(t: Cluster, id: WorkloadId, s: WorkloadState)
    requires Sound(t) && Exact(t) && id in t.workloads && !InUse(s) && t.workloads[id].actual != s
    ensures Exact(Released(t, id, s)) <==> InUse(t.workloads[id].actual) || Emptied(t, t.workloads[id])
  {
    var w, after := t.workloads[id], Released(t, id, s);
    if InUse(w.actual) {
      ReleaseFits(t, id);
    }
    forall n, d | n in t.nodes
      ensures Sum(after.workloads, n, d, ByState) == t.nodes[n].Allocated(d) - Charge(w, n, d, ByState)
      ensures Charge(w, n, d, ByState) <= t.nodes[n].Allocated(d)
    {
      SumAfterWrite(t.workloads, id, w.(actual := s, held := false), n, d, ByState);
    }
    hide Sound, Exact, Sum;
    if InUse(w.actual) || Emptied(t, w) {
      forall n, d | n in after.nodes ensures after.nodes[n].Allocated(d) == Sum(after.workloads, n, d, ByState) {
        assert Charge(w, n, d, ByState) <= t.nodes[n].Allocated(d);
      }
      ExactByNode(after);
    } else {
      var n := w.node.value;
      var d := if t.nodes[n].cpuAllocated > 0 then Cpu else Memory;
      assert after.nodes[n].Allocated(d) < t.nodes[n].Allocated(d) == Sum(after.workloads, n, d, ByState);
      NotExactAt(after, n, d);
    }
  }

  lemma ExactByNode(t: Cluster)
    requires forall n, d :: n in t.nodes ==> t.nodes[n].Allocated(d) == Sum(t.workloads, n, d, ByState)
    ensures Exact(t)
  {
  }

  lemma NotExactAt(t: Cluster, n: NodeId, d: Dim)
    requires n in t.nodes && t.nodes[n].Allocated(d) != Sum(t.workloads, n, d, ByState)
    ensures !Exact(t)
  {
  }

  lemma CreateKeeps(t: Cluster, e: Event)
    requires Sound(t) && e.Create? && Lawful(t, e)
    ensures Exact(t) ==> Exact(Step(t, e))
    ensures Covered(t) ==> Covered(Step(t, e))
  {
    forall n, d, b ensures Sum(Step(t, e).workloads, n, d, b) == Sum(t.workloads, n, d, b) {
      SumAfterWrite(t.workloads, e.row.id, e.row, n, d, b);
    }
  }

  lemma MarkRunningKeeps(t: Cluster, e: Event)
    requires Sound(t) && e.MarkRunning? && Lawful(t, e)
    ensures Exact(t) ==> Exact(Step(t, e))
    ensures Covered(t) ==> Covered(Step(t, e))
  {
    SameChargeKeeps(t, e.id, t.workloads[e.id].(container := Some(e.container), actual := Running));
  }

  lemma SetDesiredKeeps(t: Cluster, e: Event)
    requires Sound(t) && e.SetDesired?
    ensures Exact(t) ==> Exact(Step(t, e))
    ensures Covered(t) ==> Covered(Step(t, e))
  {
    if e.id in t.workloads {
      SameChargeKeeps(t, e.id, t.workloads[e.id].(desired := e.state));
    }
  }

  lemma RawWriteExact(t: Cluster, e: Event)
    requires Sound(t) && e.SetActual? && Lawful(t, e)
    ensures Exact(t) ==> (Exact(Step(t, e)) <==> Clean(t, e))
    ensures Covered(t) ==> Covered(Step(t, e))
  {
    var w := t.workloads[e.id];
    var w' := w.(actual := e.state);
    SameChargeKeeps(t, e.id, w');
    if Exact(t) && InUse(e.state) != InUse(w.actual) {
      var n := w.node.value;
      SumAfterWrite(t.workloads, e.id, w', n, Cpu, ByState);
      NotExactAt(Step(t, e), n, Cpu);
    }
  }

  lemma RecoverKeeps(t: Cluster, e: Event)
    requires Sound(t) && e.Recover?
    ensures Exact(t) ==> Exact(Step(t, e))
    ensures Covered(t) ==> Covered(Step(t, e))
  {
    SumsAfterRecover(t, e.node);
    hide Sound, Sum, ResetIfOn;
    var after := Step(t, e);
    forall n, d | n in after.nodes
      ensures n in t.nodes && after.nodes[n].Allocated(d) == if n == e.node then 0 else t.nodes[n].Allocated(d)
    {
    }
  }

  lemma NodeWriteKeeps(t: Cluster, e: Event)
    requires Sound(t) && (e.Register? || e.SetNodeStatus?)
    ensures Exact(t) ==> Exact(Step(t, e))
    ensures Covered(t) ==> Covered(Step(t, e))
  {
    var after := Step(t, e);
    forall n, d | n in after.nodes
      ensures if n in t.nodes then after.nodes[n].Allocated(d) == t.nodes[n].Allocated(d)
              else after.nodes[n].Allocated(d) == 0 == Sum(t.workloads, n, d, ByState)
    {
      NodeWriteKeepsAllocation(t, e, n, d);
    }
    assert after.workloads == t.workloads;
    hide Step, Commits, Sound;
  }

  lemma NodeWriteKeepsAllocation(t: Cluster, e: Event, n: NodeId, d: Dim)
    requires Sound(t) && (e.Register? || e.SetNodeStatus?) && n in Step(t, e).nodes
    ensures if n in t.nodes then Step(t, e).nodes[n].Allocated(d) == t.nodes[n].Allocated(d)
            else Step(t, e).nodes[n].Allocated(d) == 0 == Sum(t.workloads, n, d, ByState)
  {
    hide Sound, Sum;
    if n !in t.nodes {
      NothingOnUnknown(t, n, d);
    }
  }

  lemma NothingOnUnknown(t: Cluster, n: NodeId, d: Dim)
    requires Sound(t) && n !in t.nodes
    ensures Sum(t.workloads, n, d, ByState) == 0
  {
    hide Lifecycle, UniqueContainers, Sum;
    forall id | id in t.workloads ensures Charge(t.workloads[id], n, d, ByState) == 0 {
    }
    SumOfNothing(t.workloads, n, d, ByState);
  }

  /** A lawful transaction keeps an exact ledger exact if and only if it is clean. */
  lemma StepExact(t: Cluster, e: Event)
    requires Sound(t) && Exact(t) && Lawful(t, e)
    ensures Exact(Step(t, e)) <==> Clean(t, e)
  {
    if e.FailAndRelease? {
      if !t.workloads[e.id].actual.Failed? { ReleaseExact(t, e.id, Failed); }
    } else if e.StopAndRelease? {
      if !t.workloads[e.id].actual.Stopped? { ReleaseExact(t, e.id, Stopped); }
    } else if e.SetActual? {
      RawWriteExact(t, e);
    } else {
      OtherKeeps(t, e);
    }
  }

  lemma OtherKeeps(t: Cluster, e: Event)
    requires Sound(t) && Lawful(t, e) && !e.FailAndRelease? && !e.StopAndRelease? && !e.SetActual?
    ensures Exact(t) ==> Exact(Step(t, e))
    ensures Covered(t) ==> Covered(Step(t, e))
  {
    match e
    case Create(_) => CreateKeeps(t, e);
    case Reserve(_, _, _, _) => ReserveKeeps(t, e);
    case MarkRunning(_, _) => MarkRunningKeeps(t, e);
    case Recover(_) => RecoverKeeps(t, e);
    case SetDesired(_, _) => SetDesiredKeeps(t, e);
    case Register(_, _, _, _) => NodeWriteKeeps(t, e);
    case SetNodeStatus(_, _) => NodeWriteKeeps(t, e);
  }

  /** Over any run of clean transactions the ledger stays exact, and no release is ever clamped. */
  lemma {:induction false} RunExact(t: Cluster, es: seq<Event>)
    requires Sound(t) && Exact(t) && LawfulRun(t, es) && CleanRun(t, es)
    ensures Exact(Run(t, es))
    decreases |es|
  {
    if |es| > 0 {
      var init := es[..|es| - 1];
      forall k | 0 <= k < |init| ensures Clean(Run(t, init[..k]), init[k]) {
        assert init[..k] == es[..k];
      }
      RunExact(t, init);
      RunSound(t, init);
      assert Clean(Run(t, es[..|es| - 1]), es[|es| - 1]);
      StepExact(Run(t, init), es[|es| - 1]);
    }
  }

  lemma ReleaseCovered(t: Cluster, id: WorkloadId, s: WorkloadState)
    requires Sound(t) && Covered(t) && id in t.workloads
    ensures Covered(Released(t, id, s))
  {
    var w := t.workloads[id];
    var after := Released(t, id, s);
    forall n, d | n in after.nodes ensures after.nodes[n].Allocated(d) <= Sum(after.workloads, n, d, ByHold) {
      SumAfterWrite(t.workloads, id, w.(actual := s, held := false), n, d, ByHold);
      assert t.nodes[n].Allocated(d) <= Sum(t.workloads, n, d, ByHold);
    }
  }

  lemma StepCovered(t: Cluster, e: Event)
    requires Sound(t) && Covered(t) && Lawful(t, e)
    ensures Covered(Step(t, e))
  {
    if e.FailAndRelease? {
      ReleaseCovered(t, e.id, Failed);
    } else if e.StopAndRelease? {
      ReleaseCovered(t, e.id, Stopped);
    } else if e.SetActual? {
      RawWriteExact(t, e);
    } else {
      OtherKeeps(t, e);
    }
  }

  /**
    In every reachable state, over-releases and leaks included, a node is allocated at most its capacity and
    at most what the workloads still holding a reservation on it asked for.
   */
  lemma {:induction false} RunSafe(t: Cluster, es: seq<Event>)
    requires Sound(t) && Covered(t) && WithinCapacity(t) && LawfulRun(t, es)
    requires forall k :: 0 <= k < |es| ==> KeepsRoom(Run(t, es[..k]), es[k])
    ensures WithinCapacity(Run(t, es)) && Covered(Run(t, es))
    decreases |es|
  {
    if |es| > 0 {
      var init, e := es[..|es| - 1], es[|es| - 1];
      forall k | 0 <= k < |init| ensures KeepsRoom(Run(t, init[..k]), init[k]) {
        assert init[..k] == es[..k];
      }
      RunSafe(t, init);
      RunSound(t, init);
      assert KeepsRoom(Run(t, es[..|es| - 1]), e);
      StepCovered(Run(t, init), e);
      StepWithinCapacity(Run(t, init), e);
    }
  }

  lemma StepWithinCapacity(t: Cluster, e: Event)
    requires WithinCapacity(t) && KeepsRoom(t, e)
    ensures WithinCapacity(Step(t, e))
  {
    var after := Step(t, e);
    forall n, d | n in after.nodes ensures after.nodes[n].Allocated(d) <= after.nodes[n].Capacity(d) {
      if n in t.nodes { assert t.nodes[n].Allocated(d) <= t.nodes[n].Capacity(d); }
    }
  }

  /** Exactness and capacity together: the in-use requests on a node never exceed what the node has. */
  lemma NeverOvercommitted(t: Cluster, es: seq<Event>, n: NodeId, d: Dim)
    requires Sound(t) && Exact(t) && Covered(t) && WithinCapacity(t) && LawfulRun(t, es) && CleanRun(t, es)
    requires forall k :: 0 <= k < |es| ==> KeepsRoom(Run(t, es[..k]), es[k])
    requires n in Run(t, es).nodes
    ensures Sum(Run(t, es).workloads, n, d, ByState) <= Run(t, es).nodes[n].Capacity(d)
  {
    RunExact(t, es);
    RunSafe(t, es);
  }

  /** Along a clean run the `GREATEST(..., 0)` of a release of an in-use workload never cuts anything off. */
  lemma RunNeverClamps(t: Cluster, es: seq<Event>, k: nat)
    requires Sound(t) && Exact(t) && LawfulRun(t, es) && CleanRun(t, es) && k < |es|
    requires es[k].FailAndRelease? || es[k].StopAndRelease?
    ensures var now := Run(t, es[..k]);
      es[k].id in now.workloads && (InUse(now.workloads[es[k].id].actual) ==> ClampIdle(now, now.workloads[es[k].id]))
  {
    hide Run, LawfulRun;
    LawfulPrefix(t, es, k + 1);
    PrefixStep(t, es, k);
    forall i | 0 <= i < k ensures Clean(Run(t, es[..k][..i]), es[..k][i]) {
      assert es[..k][..i] == es[..i];
    }
    RunExact(t, es[..k]);
    RunSound(t, es[..k]);
    var now := Run(t, es[..k]);
    if InUse(now.workloads[es[k].id].actual) { ReleaseFits(now, es[k].id); }
  }

  // ---- One charge per assignment ----

  predicate Returns(t: Cluster, e: Event, id: WorkloadId) {
    e.Recover? && id in t.workloads && t.workloads[id].node == Some(e.node) && InUse(t.workloads[id].actual)
  }

  lemma StepKeepsAssigned(t: Cluster, e: Event, id: WorkloadId)
    requires Sound(t) && Lawful(t, e) && id in t.workloads && !t.workloads[id].desired.Pending?
    requires !Returns(t, e, id)
    ensures id in Step(t, e).workloads && !Step(t, e).workloads[id].desired.Pending?
  {
  }

  lemma {:induction false} StaysAssigned(t: Cluster, es: seq<Event>, i: nat, m: nat, id: WorkloadId)
    requires Sound(t) && LawfulRun(t, es) && i < m <= |es|
    requires es[i].Reserve? && es[i].id == id && Commits(Run(t, es[..i]), es[i])
    requires forall k :: i < k < m ==> !Returns(Run(t, es[..k]), es[k], id)
    ensures id in Run(t, es[..m]).workloads && !Run(t, es[..m]).workloads[id].desired.Pending?
    decreases m
  {
    hide Run, LawfulRun;
    PrefixStep(t, es, m - 1);
    if m - 1 > i {
      StaysAssigned(t, es, i, m - 1, id);
      LawfulPrefix(t, es, m);
      RunSound(t, es[..m - 1]);
      StepKeepsAssigned(Run(t, es[..m - 1]), es[m - 1], id);
    }
  }

  /** Between two charges of one workload lies a node recovery that took its assignment back. */
  lemma ChargedOncePerAssignment(t: Cluster, es: seq<Event>, i: nat, j: nat)
    requires Sound(t) && LawfulRun(t, es) && i < j < |es|
    requires es[i].Reserve? && es[j].Reserve? && es[i].id == es[j].id
    requires Commits(Run(t, es[..i]), es[i])
    ensures exists k :: i < k < j && Returns(Run(t, es[..k]), es[k], es[i].id)
  {
    hide Run, LawfulRun;
    if forall k :: i < k < j ==> !Returns(Run(t, es[..k]), es[k], es[i].id) {
      StaysAssigned(t, es, i, j, es[i].id);
      LawfulPrefix(t, es, j + 1);
      PrefixStep(t, es, j);
      assert false;
    }
  }

  // ---- Node loss ----

  ghost function Occupying(rows: Rows): set<WorkloadId> {
    set id | id in rows && InUse(rows[id].actual)
  }

  ghost function OccupyingOn(rows: Rows, n: NodeId): set<WorkloadId> {
    set id | id in rows && InUse(rows[id].actual) && rows[id].node == Some(n)
  }

  /**
    Recovering a node loses no work: the same workloads are in use, none of them on the node, nothing is
    allocated on it, and the allocations of other nodes are untouched. It also forgets stop requests: the
    active workloads afterwards are those before plus the in-use ones of the node that were asked to stop.
   */
  lemma RecoverLosesNothing(t: Cluster, n: NodeId)
    requires n in t.nodes
    ensures var after := Step(t, Recover(n));
      && after.workloads.Keys == t.workloads.Keys
      && Occupying(after.workloads) == Occupying(t.workloads)
      && OccupyingOn(after.workloads, n) == {}
      && (forall d :: after.nodes[n].Allocated(d) == 0)
      && (forall m :: m in t.nodes && m != n ==> m in after.nodes && after.nodes[m] == t.nodes[m])
      && (forall s :: Members(after.workloads, s, AnyActive)
                   == Members(t.workloads, s, AnyActive)
                    + (set id | id in OccupyingOn(t.workloads, n) && t.workloads[id].service == s))
  {
    var after := Step(t, Recover(n));
    assert Occupying(after.workloads) == Occupying(t.workloads);
    forall s ensures Members(after.workloads, s, AnyActive)
                  == Members(t.workloads, s, AnyActive)
                   + (set id | id in OccupyingOn(t.workloads, n) && t.workloads[id].service == s) {
    }
  }

  /** What lets an event put work on a node that is not ready: reviving a finished row in place. */
  predicate Revives(t: Cluster, e: Event, n: NodeId) {
    e.SetActual? && InUse(e.state) && e.id in t.workloads &&
    !InUse(t.workloads[e.id].actual) && t.workloads[e.id].node == Some(n)
  }

  /** On a node that is not ready, reviving a finished row is the one way to put work. */
  lemma StepKeepsVacant(t: Cluster, e: Event, n: NodeId)
    requires Sound(t) && Lawful(t, e) && n in t.nodes && !t.nodes[n].status.Ready?
    requires OccupyingOn(t.workloads, n) == {}
    ensures OccupyingOn(Step(t, e).workloads, n) == {} <==> !Revives(t, e, n)
  {
    var after := Step(t, e).workloads;
    forall id | id in after && InUse(after[id].actual) && after[id].node == Some(n) ensures Revives(t, e, n) {
      if id in t.workloads {
        assert id !in OccupyingOn(t.workloads, n);
      }
    }
    if Revives(t, e, n) {
      assert e.id in OccupyingOn(after, n);
    }
  }

  /** The node is known and not ready at every moment of the run from position `start` on. */
  ghost predicate OutSince(t: Cluster, es: seq<Event>, start: nat, n: NodeId) {
    forall k :: start <= k <= |es| ==> n in Run(t, es[..k]).nodes && !Run(t, es[..k]).nodes[n].status.Ready?
  }

  ghost predicate VacantAt(t: Cluster, es: seq<Event>, k: nat, n: NodeId)
    requires k <= |es|
  {
    OccupyingOn(Run(t, es[..k]).workloads, n) == {}
  }

  lemma {:induction false} VacantUpTo(t: Cluster, es: seq<Event>, start: nat, m: nat, n: NodeId)
    requires Sound(t) && LawfulRun(t, es) && start <= m <= |es|
    requires OutSince(t, es, start, n) && VacantAt(t, es, start, n)
    requires forall k :: start <= k < m ==> !Revives(Run(t, es[..k]), es[k], n)
    ensures VacantAt(t, es, m, n)
    decreases m
  {
    hide Run, LawfulRun, Sound, Revives, OccupyingOn;
    if m > start {
      VacantUpTo(t, es, start, m - 1, n);
      VacancyStep(t, es, m - 1, n);
    }
  }

  lemma VacancyStep(t: Cluster, es: seq<Event>, k: nat, n: NodeId)
    requires Sound(t) && LawfulRun(t, es) && k < |es| && VacantAt(t, es, k, n)
    requires n in Run(t, es[..k]).nodes && !Run(t, es[..k]).nodes[n].status.Ready?
    ensures VacantAt(t, es, k + 1, n) <==> !Revives(Run(t, es[..k]), es[k], n)
  {
    hide Run, LawfulRun, Sound, Revives, OccupyingOn;
    PrefixStep(t, es, k);
    LawfulPrefix(t, es, k + 1);
    LawfulPrefix(t, es, k);
    RunSound(t, es[..k]);
    StepKeepsVacant(Run(t, es[..k]), es[k], n);
  }

  /**
    While a vacated node is not ready it stays without work at every moment, if and only if no finished row on
    it is revived. Heartbeats, health checks and registrations may come and go.
   */
  lemma RunKeepsVacant(t: Cluster, es: seq<Event>, start: nat, n: NodeId)
    requires Sound(t) && LawfulRun(t, es) && start <= |es|
    requires OutSince(t, es, start, n) && VacantAt(t, es, start, n)
    ensures (forall k :: start <= k <= |es| ==> VacantAt(t, es, k, n))
      <==> (forall k :: start <= k < |es| ==> !Revives(Run(t, es[..k]), es[k], n))
  {
    hide Run, LawfulRun, Sound, Revives, VacantAt;
    if forall k :: start <= k < |es| ==> !Revives(Run(t, es[..k]), es[k], n) {
      forall k | start <= k <= |es| ensures VacantAt(t, es, k, n) {
        VacantUpTo(t, es, start, k, n);
      }
    }
    if forall k :: start <= k <= |es| ==> VacantAt(t, es, k, n) {
      forall k | start <= k < |es| ensures !Revives(Run(t, es[..k]), es[k], n) {
        assert VacantAt(t, es, k, n) && VacantAt(t, es, k + 1, n);
        VacancyStep(t, es, k, n);
      }
    }
  }

  // ---- Stable nodes ----

  /** A registration or status write that finds the node keeps its status. */
  predicate Steady(t: Cluster, e: Event) {
    (e.Register? || e.SetNodeStatus?) && e.node in t.nodes ==> e.status == t.nodes[e.node].status
  }

  /** Nor does it change anything else that placement looks at, or bring a new node that is ready. */
  predicate Quiet(t: Cluster, e: Event) {
    && Steady(t, e)
    && (e.Register? ==>
          if e.node in t.nodes
          then e.cpuCapacity == t.nodes[e.node].cpuCapacity && e.memoryCapacity == t.nodes[e.node].memoryCapacity
          else !e.status.Ready?)
  }

  /** Nor does it give anything back that a node has allocated. */
  predicate Calm(t: Cluster, e: Event) {
    Quiet(t, e) && (e.FailAndRelease? || e.StopAndRelease? || e.Recover? ==> Step(t, e).nodes == t.nodes)
  }

  ghost predicate SteadySince(t: Cluster, es: seq<Event>, start: nat) {
    forall k :: start <= k < |es| ==> Steady(Run(t, es[..k]), es[k])
  }

  ghost predicate QuietSince(t: Cluster, es: seq<Event>, start: nat) {
    forall k :: start <= k < |es| ==> Quiet(Run(t, es[..k]), es[k])
  }

  ghost predicate CalmSince(t: Cluster, es: seq<Event>, start: nat) {
    forall k :: start <= k < |es| ==> Calm(Run(t, es[..k]), es[k])
  }

  lemma CalmCut(t: Cluster, es: seq<Event>, start: nat, m: nat)
    requires start <= m <= |es| && CalmSince(t, es, start)
    ensures CalmSince(t, es[..m], start) && CalmSince(t, es, m) && QuietSince(t, es[..m], start)
  {
    hide Run, Calm;
    forall k | start <= k < m
      ensures Calm(Run(t, es[..m][..k]), es[..m][k]) && Quiet(Run(t, es[..m][..k]), es[..m][k])
    {
      assert es[..m][..k] == es[..k];
      CalmIsQuiet(Run(t, es[..k]), es[k]);
    }
  }

  lemma QuietCut(t: Cluster, es: seq<Event>, start: nat, m: nat)
    requires start <= m <= |es| && QuietSince(t, es, start)
    ensures QuietSince(t, es[..m], start) && QuietSince(t, es, m)
  {
    hide Run, Quiet;
    forall k | start <= k < m ensures Quiet(Run(t, es[..m][..k]), es[..m][k]) {
      assert es[..m][..k] == es[..k];
    }
  }

  lemma CalmIsQuiet(t: Cluster, e: Event)
    requires Calm(t, e)
    ensures Quiet(t, e)
  {
  }

  ghost predicate Bare(t: Cluster, n: NodeId) {
    forall id :: id in t.workloads ==> t.workloads[id].node != Some(n)
  }

  /** Steady writes keep every status, and a node that is not ready at the end and is new has never had a row. */
  lemma {:induction false} SteadyNodes(t: Cluster, es: seq<Event>, start: nat, m: nat, n: NodeId)
    requires Sound(t) && LawfulRun(t, es) && start <= m <= |es| && SteadySince(t, es, start)
    ensures n in Run(t, es[..start]).nodes ==>
      n in Run(t, es[..m]).nodes && Run(t, es[..m]).nodes[n].status == Run(t, es[..start]).nodes[n].status
    ensures n !in Run(t, es[..start]).nodes && n in Run(t, es[..m]).nodes && !Run(t, es[..m]).nodes[n].status.Ready? ==>
      Bare(Run(t, es[..m]), n)
    decreases m
  {
    hide Run, LawfulRun;
    LawfulPrefix(t, es, m);
    RunSound(t, es[..m]);
    if m > start {
      SteadyNodes(t, es, start, m - 1, n);
      PrefixStep(t, es, m - 1);
      LawfulPrefix(t, es, m - 1);
      RunSound(t, es[..m - 1]);
      SteadyStep(Run(t, es[..m - 1]), es[m - 1], n);
    }
  }

  lemma SteadyStep(t: Cluster, e: Event, n: NodeId)
    requires Sound(t) && Lawful(t, e) && Steady(t, e)
    ensures n in t.nodes ==> n in Step(t, e).nodes && Step(t, e).nodes[n].status == t.nodes[n].status
    ensures n in Step(t, e).nodes && !Step(t, e).nodes[n].status.Ready? && Bare(t, n) ==> Bare(Step(t, e), n)
    ensures n !in t.nodes ==> Bare(t, n)
  {
  }

  // ---- Whom a transaction steers ----

  /** The event creates a workload of service `s`, or sets the desired state of one. */
  predicate SteersFor(t: Cluster, e: Event, s: ServiceId) {
    match e
    case Create(w) => w.service == s
    case SetDesired(id, _) => id in t.workloads && t.workloads[id].service == s
    case _ => false
  }

  /** From position `start` on, no service but possibly `o` is steered. */
  ghost predicate SteersOnly(t: Cluster, es: seq<Event>, start: nat, o: ServiceId) {
    forall k, s :: start <= k < |es| && SteersFor(Run(t, es[..k]), es[k], s) ==> s == o
  }

  /** Between positions `from` and `to` service `s` is not steered. */
  ghost predicate Leaves(t: Cluster, es: seq<Event>, from: nat, to: nat, s: ServiceId) {
    from <= to <= |es| && forall k :: from <= k < to ==> !SteersFor(Run(t, es[..k]), es[k], s)
  }

  lemma NothingSteered(t: Cluster, es: seq<Event>, o: ServiceId)
    ensures SteersOnly(t, es, |es|, o)
  {
  }

  lemma SteersOnlySnoc(t: Cluster, es: seq<Event>, e: Event, start: nat, o: ServiceId)
    requires SteersOnly(t, es, start, o) && forall s :: SteersFor(Run(t, es), e, s) ==> s == o
    ensures SteersOnly(t, es + [e], start, o)
  {
    hide Run, SteersFor;
    forall k, s | start <= k < |es + [e]| && SteersFor(Run(t, (es + [e])[..k]), (es + [e])[k], s) ensures s == o {
      assert (es + [e])[..k] == if k < |es| then es[..k] else es;
    }
  }

  lemma SteersOnlyThrough(t: Cluster, mid: seq<Event>, after: seq<Event>, start: nat, o: ServiceId)
    requires start <= |mid| && mid <= after && SteersOnly(t, mid, start, o) && SteersOnly(t, after, |mid|, o)
    ensures SteersOnly(t, after, start, o)
  {
    hide Run, SteersFor;
    forall k, s | start <= k < |after| && SteersFor(Run(t, after[..k]), after[k], s) ensures s == o {
      if k < |mid| {
        assert after[..k] == mid[..k] && after[k] == mid[k];
      }
    }
  }

  // ---- Where exactness is lost ----

  function Seed(): Cluster {
    Cluster(map[0 := Node(4, 4, 0, 0, Ready)], map[])
  }

  function Demo(id: WorkloadId): Workload {
    Workload(id, 0, None, None, 0, 1, 1, 1, Pending, Pending, false)
  }

  /** The only workload of `Seed`'s node, on its way through the table. */
  function Placed(id: WorkloadId, desired: WorkloadState, actual: WorkloadState, held: bool): Workload {
    Demo(id).(node := Some(0), container := if id == 1 then Some(7) else None,
              desired := desired, actual := actual, held := held)
  }

  function SeedWith(taken: nat, status: NodeStatus, rows: Rows): Cluster {
    Cluster(map[0 := Node(4, 4, taken, taken, status)], rows)
  }

  lemma SeedIsExact()
    ensures Sound(Seed()) && Exact(Seed())
  {
    forall d ensures Sum(map[], 0, d, ByState) == 0 { SumOfNothing(map[], 0, d, ByState); }
  }

  lemma RunningOne() returns (es: seq<Event>, now: Cluster)
    ensures LawfulRun(Seed(), es) && now == Run(Seed(), es)
    ensures now == SeedWith(1, Ready, map[1 := Placed(1, Scheduled, Running, true)])
  {
    es, now := [], Seed();
    assert LawfulRun(Seed(), es) && now == Run(Seed(), es);
    hide Run, LawfulRun;
    es, now := Then(Seed(), es, now, Create(Demo(1)));
    es, now := Then(Seed(), es, now, Reserve(1, 0, 1, 1));
    es, now := Then(Seed(), es, now, MarkRunning(1, 7));
  }

  lemma StoppingOne() returns (es: seq<Event>, now: Cluster)
    ensures LawfulRun(Seed(), es) && now == Run(Seed(), es)
    ensures now == SeedWith(1, Ready, map[1 := Placed(1, Stopped, Running, true)])
  {
    hide Run, LawfulRun;
    es, now := RunningOne();
    es, now := Then(Seed(), es, now, SetDesired(1, Stopped));
  }

  lemma FailedOneAndNext() returns (es: seq<Event>, now: Cluster)
    ensures LawfulRun(Seed(), es) && now == Run(Seed(), es)
    ensures now == SeedWith(1, Ready, map[
      1 := Placed(1, Stopped, Failed, false), 2 := Placed(2, Scheduled, Pending, true)])
  {
    hide Run, LawfulRun;
    es, now := StoppingOne();
    es, now := Then(Seed(), es, now, FailAndRelease(1));
    assert now == SeedWith(0, Ready, map[1 := Placed(1, Stopped, Failed, false)]);
    es, now := Then(Seed(), es, now, Create(Demo(2)));
    es, now := Then(Seed(), es, now, Reserve(2, 0, 1, 1));
  }

  lemma ReleasedTwice() returns (es: seq<Event>, now: Cluster)
    ensures LawfulRun(Seed(), es) && now == Run(Seed(), es)
    ensures now == SeedWith(0, Ready, map[
      1 := Placed(1, Stopped, Stopped, false), 2 := Placed(2, Scheduled, Pending, true)])
  {
    hide Run, LawfulRun;
    es, now := FailedOneAndNext();
    es, now := Then(Seed(), es, now, StopAndRelease(1));
  }

  /**
    A run of lawful transactions that ends with one workload in use on a node that has nothing allocated:
    a running workload is asked to stop, its container goes missing and it is failed and released, and
    stopping the failed row releases it a second time.
   */
  lemma DoubleReleaseIsReachable() returns (es: seq<Event>)
    ensures Sound(Seed()) && Exact(Seed()) && LawfulRun(Seed(), es)
    ensures var end := Run(Seed(), es);
      0 in end.nodes && end.nodes[0].cpuAllocated == 0 &&
      2 in end.workloads && Charge(end.workloads[2], 0, Cpu, ByState) == 1 && !Exact(end)
  {
    hide Run, LawfulRun;
    SeedIsExact();
    var now;
    es, now := ReleasedTwice();
    SumWithout(now.workloads, 2, 0, Cpu, ByState);
    assert now.nodes[0].Allocated(Cpu) == 0;
  }

  /** A workload that needs all of `Seed`'s node. */
  function Large(): Workload {
    Demo(3).(cpu := 4, memory := 4)
  }

  /**
    Continuing that run, the room that was given back twice is reserved again: the workloads in use on the node
    ask for more than it has, though its allocation does not show it.
   */
  lemma OvercommitIsReachable() returns (es: seq<Event>)
    ensures Sound(Seed()) && Exact(Seed()) && LawfulRun(Seed(), es)
    ensures var end := Run(Seed(), es);
      0 in end.nodes && end.nodes[0].Allocated(Cpu) <= end.nodes[0].Capacity(Cpu) < Sum(end.workloads, 0, Cpu, ByState)
  {
    hide Run, LawfulRun;
    SeedIsExact();
    var now;
    es, now := ReleasedTwice();
    es, now := Then(Seed(), es, now, Create(Large()));
    es, now := Then(Seed(), es, now, Reserve(3, 0, 4, 4));
    var rows := now.workloads;
    assert rows[2] == Placed(2, Scheduled, Pending, true) && rows[3].cpu == 4;
    SumWithout(rows, 2, 0, Cpu, ByState);
    SumWithout(rows - {2}, 3, 0, Cpu, ByState);
  }

  /**
    A run of lawful transactions that ends with an allocation nobody uses: the runtime reconciler stops the
    container of a workload that was asked to stop and writes STOPPED without releasing it, after which the
    executor's own release finds the row already stopped and does nothing.
   */
  lemma LeakIsReachable() returns (es: seq<Event>)
    ensures Sound(Seed()) && Exact(Seed()) && LawfulRun(Seed(), es)
    ensures var end := Run(Seed(), es);
      0 in end.nodes && end.nodes[0].cpuAllocated == 1 &&
      Occupying(end.workloads) == {} && Step(end, StopAndRelease(1)) == end && !Exact(end)
  {
    hide Run, LawfulRun;
    SeedIsExact();
    var now;
    es, now := StoppingOne();
    es, now := Then(Seed(), es, now, SetActual(1, Stopped));
    assert now == SeedWith(1, Ready, map[1 := Placed(1, Stopped, Stopped, true)]);
    SumOfNothing(now.workloads, 0, Cpu, ByState);
    assert now.nodes[0].Allocated(Cpu) == 1;
  }

  /** What the runtime reconciler does to a stopped row whose container is still listed, `k` times over. */
  function Rounds(id: WorkloadId, k: nat): seq<Event> {
    if k == 0 then [] else Rounds(id, k - 1) + [FailAndRelease(id), SetActual(id, Stopped)]
  }

  function Drained(t: Cluster, w: Workload, k: nat): Cluster
    requires w.node.Some? && w.node.value in t.nodes
  {
    var n := t.nodes[w.node.value];
    Cluster(
      t.nodes[w.node.value := n.(cpuAllocated := Monus(n.cpuAllocated, k * w.cpu),
                                 memoryAllocated := Monus(n.memoryAllocated, k * w.memory))],
      if k == 0 then t.workloads else t.workloads[w.id := w.(held := false)])
  }

  /**
    The release repeats without bound: from a row that was asked to stop and has stopped, but whose container is
    still there, any number of rounds is lawful. The rows stay as they are, but for the hold that the first
    round gives up, and each round takes the request off the node once more.
   */
  lemma {:induction false} ReleaseRepeats(t: Cluster, id: WorkloadId, k: nat)
    requires Sound(t) && id in t.workloads
    requires t.workloads[id].desired.Stopped? && t.workloads[id].actual.Stopped? && t.workloads[id].container.Some?
    ensures LawfulRun(t, Rounds(id, k)) && Run(t, Rounds(id, k)) == Drained(t, t.workloads[id], k)
  {
    var w := t.workloads[id];
    if k == 0 {
      assert Drained(t, w, 0) == t;
    } else {
      ReleaseRepeats(t, id, k - 1);
      hide Run, LawfulRun, Sound;
      var es, now := Rounds(id, k - 1), Drained(t, w, k - 1);
      DrainedOnce(t, w, k);
      es, now := Then(t, es, now, FailAndRelease(id));
      es, now := Then(t, es, now, SetActual(id, Stopped));
      assert es == Rounds(id, k);
    }
  }

  lemma DrainedOnce(t: Cluster, w: Workload, k: pos)
    requires w.id in t.workloads && t.workloads[w.id] == w && w.node.Some? && w.node.value in t.nodes
    requires w.desired.Stopped? && w.actual.Stopped? && w.container.Some?
    ensures var before := Drained(t, w, k - 1);
      && Lawful(before, FailAndRelease(w.id))
      && Lawful(Step(before, FailAndRelease(w.id)), SetActual(w.id, Stopped))
      && Step(Step(before, FailAndRelease(w.id)), SetActual(w.id, Stopped)) == Drained(t, w, k)
  {
    assert k * w.cpu == (k - 1) * w.cpu + w.cpu && k * w.memory == (k - 1) * w.memory + w.memory;
  }

  /**
    A run of lawful transactions that revives a failed workload on a node that was lost and recovered, as the
    runtime reconciler does when another node reports the container: the node is unhealthy, and has work.
   */
  lemma ReviveIsReachable() returns (es: seq<Event>)
    ensures LawfulRun(Seed(), es) && |es| > 0 && es[|es| - 1] == SetActual(1, Running)
    ensures Recover(0) in es && VacantAt(Seed(), es, |es| - 1, 0)
    ensures var end := Run(Seed(), es);
      0 in end.nodes && end.nodes[0].status.Unhealthy? && OccupyingOn(end.workloads, 0) == {1}
  {
    hide Run, LawfulRun;
    var now;
    es, now := RecoveredOne();
    var before := es;
    es, now := Then(Seed(), es, now, SetActual(1, Running));
    assert es[..|es| - 1] == before && es[|before| - 1] == Recover(0);
    assert now.workloads[1] == Placed(1, Scheduled, Running, false);
  }

  lemma RecoveredOne() returns (es: seq<Event>, now: Cluster)
    ensures LawfulRun(Seed(), es) && now == Run(Seed(), es) && |es| > 0 && es[|es| - 1] == Recover(0)
    ensures now == SeedWith(0, Unhealthy, map[1 := Placed(1, Scheduled, Failed, false)])
  {
    hide Run, LawfulRun;
    es, now := RunningOne();
    es, now := Then(Seed(), es, now, FailAndRelease(1));
    es, now := Then(Seed(), es, now, SetNodeStatus(0, Unhealthy));
    es, now := Then(Seed(), es, now, Recover(0));
  }

  lemma Then(start: Cluster, es: seq<Event>, now: Cluster, e: Event) returns (es': seq<Event>, now': Cluster)
    requires LawfulRun(start, es) && now == Run(start, es) && Lawful(now, e)
    ensures es' == es + [e] && LawfulRun(start, es') && now' == Step(now, e) == Run(start, es')
  {
    es', now' := es + [e], Step(now, e);
    RunSnoc(start, es, e);
  }
}
