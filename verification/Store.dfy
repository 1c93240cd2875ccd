/**
  The PostgreSQL store: three tables that every component updates in place, one method per transaction.

  Each method is specified by the event it stands for (`Applied`). The ghost `log` keeps those events, so
  that whatever is proved of all lawful runs in `Ledger` holds of the tables at any moment of any component.
 */
module Store {
  import opened Model
  import opened Tables
  import opened Ledger
  import opened Services

  datatype NodeEntry = NodeEntry(id: NodeId, row: Node)

  /** `ORDER BY id` */
  ghost predicate ListsNodes(ns: seq<NodeEntry>, nodes: NodeRows) {
    && (forall i, j :: 0 <= i < j < |ns| ==> ns[i].id < ns[j].id)
    && (forall i :: 0 <= i < |ns| ==> ns[i].id in nodes && nodes[ns[i].id] == ns[i].row)
    && (forall n :: n in nodes ==> NodeEntry(n, nodes[n]) in ns)
  }

  datatype Kind = KCreate | KReserve | KRunning | KFail | KStop | KRecover | KDesired | KActual | KEnvironment

  function KindOf(e: Event): Kind {
    match e
    case Create(_) => KCreate
    case Reserve(_, _, _, _) => KReserve
    case MarkRunning(_, _) => KRunning
    case FailAndRelease(_) => KFail
    case StopAndRelease(_) => KStop
    case Recover(_) => KRecover
    case SetDesired(_, _) => KDesired
    case SetActual(_, _) => KActual
    case Register(_, _, _, _) => KEnvironment
    case SetNodeStatus(_, _) => KEnvironment
  }

  /** `after` continues `before` with transactions of the given kinds only. */
  ghost predicate Grew(before: seq<Event>, after: seq<Event>, kinds: set<Kind>) {
    before <= after && forall i :: |before| <= i < |after| ==> KindOf(after[i]) in kinds
  }

  method SmallestOf(s: set<nat>) returns (m: nat)
    requires s != {}
    ensures m in s && forall k :: k in s ==> m <= k
  {
    m :| m in s;
    var rest := s - {m};
    while rest != {}
      invariant rest <= s && m in s
      invariant forall k :: k in s ==> k in rest || m <= k
    {
      var k :| k in rest;
      rest := rest - {k};
      if k < m { m := k; }
    }
  }

  method EarliestOf(services: ServiceRows, ids: set<ServiceId>) returns (s: ServiceId)
    requires ids != {} && ids <= services.Keys
    ensures s in ids && forall o :: o in ids ==> services[s].createdAt <= services[o].createdAt
  {
    s :| s in ids;
    var rest := ids - {s};
    while rest != {}
      invariant rest <= ids && s in ids
      invariant forall o :: o in ids ==> o in rest || services[s].createdAt <= services[o].createdAt
    {
      var o :| o in rest;
      rest := rest - {o};
      if services[o].createdAt < services[s].createdAt { s := o; }
    }
  }

  /** Some number that is not in the set. */
  method NewId(used: set<nat>) returns (id: nat)
    ensures id !in used
  {
    var bound: nat, rest := 0, used;
    while rest != {}
      invariant forall k :: k in used ==> k in rest || k <= bound
    {
      var k :| k in rest;
      rest := rest - {k};
      if k > bound { bound := k; }
    }
    var skip: int := *;
    id := bound + 1 + Max(skip, 0);
  }

  /** A random workload id; collisions of 128-bit random ids are left out. */
  method NewWorkloadId(rows: Rows) returns (id: WorkloadId)
    ensures id !in rows
  {
    id := NewId(rows.Keys);
  }

  /**
    Selects the in-use rows of the node and resets them one by one. The finished rows of the node lose their
    hold with the node's allocation; that bit is not a column.
   */
  method ResetRowsOn(rows: Rows, n: NodeId) returns (after: Rows)
    ensures after == map id | id in rows :: ResetIfOn(rows[id], n)
  {
    var selected := set id | id in rows && rows[id].node == Some(n) && InUse(rows[id].actual);
    after := map id | id in rows :: if rows[id].node == Some(n) then rows[id].(held := false) else rows[id];
    var rest := selected;
    while rest != {}
      invariant rest <= selected
      invariant after.Keys == rows.Keys
      invariant forall id :: id in rows && id !in rest ==> after[id] == ResetIfOn(rows[id], n)
      invariant forall id :: id in rest ==> after[id] == rows[id].(held := false)
    {
      var id :| id in rest;
      after := after[id := after[id].(
        node := None, container := None, desired := Pending, actual := Pending, held := false)];
      rest := rest - {id};
    }
  }

  /** A row as it is inserted: unassigned and pending. */
  function Fresh(row: Workload): Workload {
    row.(node := None, container := None, desired := Pending, actual := Pending, held := false)
  }

  class Postgres {
    var nodes: NodeRows
    var workloads: Rows
    var services: ServiceRows
    ghost var origin: Cluster
    ghost var log: seq<Event>

    ghost function Now(): Cluster
      reads this
    {
      Cluster(nodes, workloads)
    }

    /** The tables are what the logged transactions made of a sound start, and all of them were lawful. */
    ghost predicate Valid()
      reads this
    {
      Sound(origin) && LawfulRun(origin, log) && Now() == Run(origin, log)
    }

    twostate predicate Applied(e: Event)
      reads this
    {
      && Now() == Step(old(Now()), e)
      && log == old(log) + [e]
      && origin == old(origin) && services == old(services)
      && (old(Valid()) && Lawful(old(Now()), e) ==> Valid())
    }

    twostate lemma Record(e: Event)
      requires Now() == Step(old(Now()), e) && log == old(log) + [e]
      requires origin == old(origin) && services == old(services)
      ensures Applied(e)
    {
      RunSnoc(origin, old(log), e);
    }

    /** Every table the components leave behind is sound. */
    lemma TablesSound()
      requires Valid()
      ensures Sound(Now())
    {
      RunSound(origin, log);
    }

    lemma TablesKeyed()
      requires Valid()
      ensures Keyed(workloads)
    {
      RunSound(origin, log);
    }

    lemma RowSound(id: WorkloadId)
      requires Valid() && id in workloads
      ensures Lifecycle(workloads[id])
    {
      RunSound(origin, log);
    }

    constructor ()
      ensures Valid() && log == [] && nodes == map[] && workloads == map[] && services == map[]
    {
      nodes, workloads, services := map[], map[], map[];
      origin, log := Cluster(map[], map[]), [];
    }

    // ---- Reads ----

    method ListWorkloadsByService(s: ServiceId) returns (ws: seq<Workload>)
      requires Keyed(workloads)
      ensures Lists(ws, workloads, s)
    {
      ws := [];
      var rest := workloads.Keys;
      while rest != {}
        invariant rest <= workloads.Keys
        invariant Distinct(ws)
        invariant forall i :: 0 <= i < |ws| ==>
          ws[i].id in workloads && ws[i].id !in rest && workloads[ws[i].id] == ws[i] && ws[i].service == s
        invariant forall id :: id in workloads && id !in rest && workloads[id].service == s ==> workloads[id] in ws
      {
        var id :| id in rest;
        rest := rest - {id};
        if workloads[id].service == s {
          ws := ws + [workloads[id]];
        }
      }
    }

    method ListWorkloadsByNode(n: NodeId) returns (ws: seq<Workload>)
      requires Keyed(workloads)
      ensures Distinct(ws)
      ensures forall i :: 0 <= i < |ws| ==>
        ws[i].id in workloads && workloads[ws[i].id] == ws[i] && ws[i].node == Some(n)
      ensures forall id :: id in workloads && workloads[id].node == Some(n) ==> workloads[id] in ws
    {
      ws := [];
      var rest := workloads.Keys;
      while rest != {}
        invariant rest <= workloads.Keys
        invariant Distinct(ws)
        invariant forall i :: 0 <= i < |ws| ==>
          ws[i].id in workloads && ws[i].id !in rest && workloads[ws[i].id] == ws[i] && ws[i].node == Some(n)
        invariant forall id :: id in workloads && id !in rest && workloads[id].node == Some(n) ==> workloads[id] in ws
      {
        var id :| id in rest;
        rest := rest - {id};
        if workloads[id].node == Some(n) {
          ws := ws + [workloads[id]];
        }
      }
    }

    method GetWorkloadByContainerID(c: ContainerId) returns (w: Option<Workload>)
      requires Keyed(workloads)
      ensures w.Some? ==> w.value.id in workloads && workloads[w.value.id] == w.value && w.value.container == Some(c)
      ensures w.None? ==> forall id :: id in workloads ==> workloads[id].container != Some(c)
    {
      var found := set id | id in workloads && workloads[id].container == Some(c);
      if found == {} {
        assert forall id :: id in workloads && workloads[id].container == Some(c) ==> id in found;
        return None;
      }
      var id :| id in found;
      return Some(workloads[id]);
    }

    method ListNodes() returns (ns: seq<NodeEntry>)
      ensures ListsNodes(ns, nodes)
    {
      ns := [];
      var rest := nodes.Keys;
      while rest != {}
        invariant rest <= nodes.Keys
        invariant forall i, j :: 0 <= i < j < |ns| ==> ns[i].id < ns[j].id
        invariant forall i :: 0 <= i < |ns| ==> ns[i].id in nodes && nodes[ns[i].id] == ns[i].row
        invariant forall i, k :: 0 <= i < |ns| && k in rest ==> ns[i].id < k
        invariant forall n :: n in nodes && n !in rest ==> NodeEntry(n, nodes[n]) in ns
      {
        var n := SmallestOf(rest);
        rest := rest - {n};
        ns := ns + [NodeEntry(n, nodes[n])];
        assert ns[|ns| - 1] == NodeEntry(n, nodes[n]);
      }
    }

    method GetNode(n: NodeId) returns (r: Option<Node>)
      ensures r == if n in nodes then Some(nodes[n]) else None
    {
      if n in nodes { return Some(nodes[n]); }
      return None;
    }

    // ---- Workload transactions ----

    method CreatePendingWorkload(row: Workload) returns (ok: bool)
      modifies this
      ensures ok == old(Commits(Now(), Create(Fresh(row)))) && Applied(Create(Fresh(row)))
    {
      var w := Fresh(row);
      ok := w.id !in workloads;
      if ok {
        workloads := workloads[w.id := w];
      }
      log := log + [Create(w)];
      Record(Create(w));
    }

    method ReserveNodeForWorkload(id: WorkloadId, n: NodeId, cpu: nat, memory: nat) returns (ok: bool)
      modifies this
      ensures ok == old(Commits(Now(), Reserve(id, n, cpu, memory)))
      ensures Applied(Reserve(id, n, cpu, memory))
    {
      ok := n in nodes && nodes[n].status.Ready?;
      if ok {
        var availableCpu := nodes[n].cpuCapacity - nodes[n].cpuAllocated;
        var availableMemory := nodes[n].memoryCapacity - nodes[n].memoryAllocated;
        ok := availableCpu >= cpu && availableMemory >= memory;
      }
      if ok {
        var before := nodes;
        nodes := nodes[n := nodes[n].(
          cpuAllocated := nodes[n].cpuAllocated + cpu, memoryAllocated := nodes[n].memoryAllocated + memory)];
        if id in workloads {
          workloads := workloads[id := workloads[id].(node := Some(n), desired := Scheduled, held := true)];
        } else {
          nodes, ok := before, false;
        }
      }
      log := log + [Reserve(id, n, cpu, memory)];
      Record(Reserve(id, n, cpu, memory));
    }

    method MarkWorkloadRunning(id: WorkloadId, c: ContainerId) returns (ok: bool)
      modifies this
      ensures ok == old(Commits(Now(), MarkRunning(id, c)))
      ensures Applied(MarkRunning(id, c))
    {
      ok := id in workloads && workloads[id].desired.Scheduled?;
      if ok {
        workloads := workloads[id := workloads[id].(container := Some(c), actual := Running)];
      }
      log := log + [MarkRunning(id, c)];
      Record(MarkRunning(id, c));
    }

    method MarkWorkloadFailedAndReleaseResources(id: WorkloadId) returns (ok: bool)
      modifies this
      ensures ok == old(Commits(Now(), FailAndRelease(id)))
      ensures Applied(FailAndRelease(id))
    {
      ok := id in workloads;
      if ok && !workloads[id].actual.Failed? {
        var w := workloads[id];
        if w.node.Some? {
          ok := w.node.value in nodes;
        }
        if ok {
          nodes := Credit(nodes, w);
          workloads := workloads[id := w.(actual := Failed, held := false)];
        }
      }
      log := log + [FailAndRelease(id)];
      Record(FailAndRelease(id));
    }

    method MarkWorkloadStoppedAndReleaseResources(id: WorkloadId) returns (ok: bool)
      modifies this
      ensures ok == old(Commits(Now(), StopAndRelease(id)))
      ensures Applied(StopAndRelease(id))
    {
      ok := id in workloads;
      if ok && !workloads[id].actual.Stopped? {
        nodes := Credit(nodes, workloads[id]);
        workloads := workloads[id := workloads[id].(actual := Stopped, held := false)];
      }
      log := log + [StopAndRelease(id)];
      Record(StopAndRelease(id));
    }

    method RecoverWorkloadsFromNode(n: NodeId)
      modifies this
      ensures Applied(Recover(n))
    {
      hide Run, LawfulRun;
      workloads := ResetRowsOn(workloads, n);
      if n in nodes {
        nodes := nodes[n := nodes[n].(cpuAllocated := 0, memoryAllocated := 0)];
      }
      log := log + [Recover(n)];
      Record(Recover(n));
    }

    method UpdateWorkloadDesiredState(id: WorkloadId, s: WorkloadState)
      modifies this
      ensures Applied(SetDesired(id, s))
    {
      if id in workloads {
        workloads := workloads[id := workloads[id].(desired := s)];
      }
      log := log + [SetDesired(id, s)];
      Record(SetDesired(id, s));
    }

    method UpdateWorkloadActualState(id: WorkloadId, s: WorkloadState)
      modifies this
      ensures Applied(SetActual(id, s))
    {
      if id in workloads {
        workloads := workloads[id := workloads[id].(actual := s)];
      }
      log := log + [SetActual(id, s)];
      Record(SetActual(id, s));
    }

    // ---- Service transactions ----

    twostate predicate OnlyServices()
      reads this
    {
      && nodes == old(nodes) && workloads == old(workloads) && origin == old(origin) && log == old(log)
      && (old(Valid()) ==> Valid())
    }

    /** `ORDER BY created_at`; services created at the same time come in any order. */
    method ListServices() returns (ss: seq<Service>)
      requires forall s :: s in services ==> services[s].id == s
      ensures forall i, j :: 0 <= i < j < |ss| ==> ss[i].id != ss[j].id && ss[i].createdAt <= ss[j].createdAt
      ensures forall i :: 0 <= i < |ss| ==> ss[i].id in services && services[ss[i].id] == ss[i]
      ensures forall s :: s in services ==> services[s] in ss
    {
      ss := [];
      var rest := services.Keys;
      while rest != {}
        invariant rest <= services.Keys
        invariant forall i, j :: 0 <= i < j < |ss| ==> ss[i].id != ss[j].id && ss[i].createdAt <= ss[j].createdAt
        invariant forall i :: 0 <= i < |ss| ==> ss[i].id in services && ss[i].id !in rest && services[ss[i].id] == ss[i]
        invariant forall i, s :: 0 <= i < |ss| && s in rest ==> ss[i].createdAt <= services[s].createdAt
        invariant forall s :: s in services && s !in rest ==> services[s] in ss
      {
        var s := EarliestOf(services, rest);
        rest := rest - {s};
        ss := ss + [services[s]];
      }
    }

    method CreateService(row: Service) returns (ok: bool)
      modifies this
      ensures OnlyServices()
      ensures ok <==> row.id !in old(services)
      ensures services == if ok then old(services)[row.id := row] else old(services)
    {
      ok := row.id !in services;
      if ok {
        services := services[row.id := row];
      }
    }

    method UpdateService(s: ServiceId, image: Image, replicas: nat, cpu: pos, memory: pos, now: int)
      modifies this
      ensures OnlyServices()
      ensures services == if s in old(services)
                          then old(services)[s := WithSpec(old(services)[s], image, replicas, cpu, memory, now)]
                          else old(services)
    {
      if s in services {
        var before := services[s];
        services := services[s := before.(image := image, desiredReplicas := replicas, cpu := cpu, memory := memory)];
        if before.image != image {
          services := services[s :=
            services[s].(version := before.version + 1, deployment := Progressing, startedAt := Some(now))];
        }
      }
    }

    method UpdateDeploymentStatus(s: ServiceId, status: DeploymentStatus)
      modifies this
      ensures OnlyServices()
      ensures services == if s in old(services)
                          then old(services)[s := WithDeployment(old(services)[s], status)] else old(services)
    {
      if s in services {
        services := services[s := services[s].(deployment := status)];
      }
    }

    /** A negative count violates the table's constraint; a missing service is no error. */
    method UpdateDesiredReplicas(s: ServiceId, replicas: int, now: int) returns (ok: bool)
      modifies this
      ensures OnlyServices()
      ensures ok <==> s !in old(services) || replicas >= 0
      ensures services == if s in old(services) && replicas >= 0
                          then old(services)[s := WithReplicas(old(services)[s], replicas, now)] else old(services)
    {
      if s in services {
        if replicas < 0 { return false; }
        services := services[s := services[s].(desiredReplicas := replicas, lastScaledAt := Some(now))];
      }
      return true;
    }

    /** Deleting what is already being deleted is no error; deleting what is not there is. */
    method MarkServiceDeleting(s: ServiceId) returns (ok: bool)
      modifies this
      ensures OnlyServices()
      ensures ok <==> s in old(services)
      ensures services == if s in old(services)
                          then old(services)[s := WithDeleting(old(services)[s])] else old(services)
    {
      ok := s in services;
      if ok && services[s].status.Active? {
        services := services[s := services[s].(status := Deleting)];
      }
    }

    method MarkServiceDeleted(s: ServiceId) returns (ok: bool)
      modifies this
      ensures OnlyServices()
      ensures ok <==> s in old(services) && old(services)[s].status.Deleting?
      ensures services == if s in old(services)
                          then old(services)[s := WithDeleted(old(services)[s])] else old(services)
    {
      ok := s in services && services[s].status.Deleting?;
      if ok {
        services := services[s := services[s].(status := Deleted)];
      }
    }

    // ---- Node transactions ----

    method RegisterNode(n: NodeId, cpu: pos, memory: pos, status: NodeStatus)
      modifies this
      ensures Applied(Register(n, cpu, memory, status))
    {
      if n in nodes {
        nodes := nodes[n := nodes[n].(cpuCapacity := cpu, memoryCapacity := memory, status := status)];
      } else {
        nodes := nodes[n := Node(cpu, memory, 0, 0, status)];
      }
      log := log + [Register(n, cpu, memory, status)];
      Record(Register(n, cpu, memory, status));
    }

    /** The status part of `UpdateHeartbeat` and `SetNodeStatus`. */
    method SetStatus(n: NodeId, status: NodeStatus) returns (ok: bool)
      modifies this
      ensures ok == old(Commits(Now(), SetNodeStatus(n, status)))
      ensures Applied(SetNodeStatus(n, status))
    {
      ok := n in nodes;
      if ok {
        nodes := nodes[n := nodes[n].(status := status)];
      }
      log := log + [SetNodeStatus(n, status)];
      Record(SetNodeStatus(n, status));
    }

    /** Whatever the API, the heartbeats and the health checker do meanwhile: any number of node writes. */
    method Interfere()
      requires Valid()
      modifies this
      ensures Valid() && workloads == old(workloads) && services == old(services) && origin == old(origin)
      ensures Grew(old(log), log, {KEnvironment})
      ensures log == old(log) ==> nodes == old(nodes)
    {
      var rounds: int := *;
      for i := 0 to Max(rounds, 0)
        invariant Valid() && workloads == old(workloads) && services == old(services) && origin == old(origin)
        invariant Grew(old(log), log, {KEnvironment})
        invariant log == old(log) ==> nodes == old(nodes)
      {
        var n: NodeId, status: NodeStatus, registers: bool := *, *, *;
        if registers {
          var cpu: pos, memory: pos := *, *;
          RegisterNode(n, cpu, memory, status);
        } else {
          var _ := SetStatus(n, status);
        }
      }
    }

    /** A container id that no row has. */
    method NewContainerId() returns (c: ContainerId)
      ensures Unused(workloads, c)
    {
      var used := set id | id in workloads && workloads[id].container.Some? :: workloads[id].container.value;
      c := NewId(used);
      forall id | id in workloads ensures workloads[id].container != Some(c) {
        assert workloads[id].container.Some? ==> workloads[id].container.value in used;
      }
    }

    /** Any transaction of the cycle on workload `id`, in any state in which it may be issued. */
    method SomeTransaction(id: WorkloadId, row: Workload, n: NodeId, s: WorkloadState, kind: int)
      requires Valid()
      modifies this
      ensures Valid() && services == old(services) && origin == old(origin) && old(log) <= log
    {
      hide Run, LawfulRun, Sound;
      if id !in workloads {
        var _ := CreatePendingWorkload(row.(id := id));
        return;
      }
      var w := workloads[id];
      if kind == 0 && w.desired.Pending? {
        TablesKeyed();
        var _ := ReserveNodeForWorkload(id, n, w.cpu, w.memory);
      } else if kind == 1 && w.desired.Scheduled? && (w.actual.Pending? || w.actual.Scheduled?) {
        var c := NewContainerId();
        var _ := MarkWorkloadRunning(id, c);
      } else if kind == 2 && (w.container.Some? || w.desired.Scheduled?) {
        var _ := MarkWorkloadFailedAndReleaseResources(id);
      } else if kind == 3 && w.desired.Stopped? {
        var _ := MarkWorkloadStoppedAndReleaseResources(id);
      } else if kind == 4 {
        RecoverWorkloadsFromNode(n);
      } else if kind == 5 && InUse(w.actual) {
        UpdateWorkloadDesiredState(id, Stopped);
      } else if w.container.Some? && (s.Running? || s.Scheduled? || (s.Stopped? && w.desired.Stopped?)) {
        UpdateWorkloadActualState(id, s);
      }
    }

    /** Whatever the reconcile cycles may do to workloads, as long and in whatever order. */
    method InterfereWithWorkloads()
      requires Valid()
      modifies this
      ensures Valid() && services == old(services) && origin == old(origin) && old(log) <= log
    {
      hide Run, LawfulRun, Sound;
      var rounds: int := *;
      for i := 0 to Max(rounds, 0)
        invariant Valid() && services == old(services) && origin == old(origin) && old(log) <= log
      {
        var id: WorkloadId, row: Workload, n: NodeId, s: WorkloadState, kind: int := *, *, *, *, *;
        SomeTransaction(id, row, n, s, kind);
      }
    }

    /** Requests to the API and decisions of the autoscaler, as many and of whatever kind. */
    method InterfereWithServices()
      requires forall s :: s in services ==> services[s].id == s
      modifies this
      ensures OnlyServices()
      ensures forall s :: s in services ==> services[s].id == s
      ensures forall s :: s in old(services) ==>
        s in services && (services[s].status == old(services)[s].status ||
                          (old(services)[s].status.Active? && services[s].status.Deleting?))
    {
      var rounds: int := *;
      for i := 0 to Max(rounds, 0)
        invariant OnlyServices()
        invariant forall s :: s in services ==> services[s].id == s
        invariant forall s :: s in old(services) ==>
          s in services && (services[s].status == old(services)[s].status ||
                            (old(services)[s].status.Active? && services[s].status.Deleting?))
      {
        var kind: int, row: Service, replicas: int, now: int := *, *, *, *;
        if kind == 0 {
          var _ := CreateService(row);
        } else if kind == 1 {
          UpdateService(row.id, row.image, row.desiredReplicas, row.cpu, row.memory, now);
        } else if kind == 2 {
          var _ := UpdateDesiredReplicas(row.id, replicas, now);
        } else {
          var _ := MarkServiceDeleting(row.id);
        }
      }
    }
  }
}
