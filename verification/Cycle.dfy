/**
  One reconcile cycle: recover or repair every node, then take every service one step further.
 */
module Cycle {
  import opened Model
  import opened Tables
  import opened Ledger
  import opened Services
  import opened Store
  import opened Placement
  import opened Execution
  import opened Replicas
  import opened Rollout
  import opened RolloutRuns
  import opened Drift
  import opened Deletion
  import opened Nodes

  // ---- What the phases leave alone ----

  /** Rows of other services are untouched, none disappears, and new rows belong to service `s`. */
  ghost predicate OnlyService(before: Rows, after: Rows, s: ServiceId) {
    && before.Keys <= after.Keys
    && (forall id :: id in before ==> after[id].service == before[id].service)
    && (forall id :: id in before && before[id].service != s ==> after[id] == before[id])
    && (forall id :: id in after && id !in before ==> after[id].service == s)
  }

  lemma DeployMoveFrame(s: Service, a: Action, before: Rows, after: Rows)
    requires Keyed(before) && DeployMove(s, a, before, after)
    ensures OnlyService(before, after, s.id)
    ensures s.deployment.DeploymentFailed? ==> after == before
  {
    var ws :| Lists(ws, before, s.id) && a == NextAction(s, ws) && ActedAs(s, a, before, after);
    if a.Retire? {
      OldestIsActive(ws, s.version);
      var older := Filter(ws, OldActive(s.version));
      assert older[0] in ws && before[a.id] == older[0];
    }
  }

  lemma ReplicaMoveFrame(s: Service, ws: seq<Workload>, before: Rows, after: Rows)
    requires Keyed(before) && Lists(ws, before, s.id) && ReplicaMove(s, ws, before, after)
    ensures OnlyService(before, after, s.id)
    ensures s.deployment.DeploymentFailed? ==> after == before
  {
    var n := Census(before, s.id, ReplicaActive(s.version)) - s.desiredReplicas;
    if n > 0 {
      CandidatesStored(ws, before, s.id, n);
      hide Census, In;
    }
  }

  lemma OnlyServiceTwice(a: Rows, b: Rows, c: Rows, s: ServiceId)
    requires OnlyService(a, b, s) && OnlyService(b, c, s)
    ensures OnlyService(a, c, s)
  {
  }

  lemma ScheduledIsOnlyService(a: Rows, b: Rows, s: ServiceId)
    requires ScheduledWithin(a, b, s)
    ensures OnlyService(a, b, s)
  {
  }

  lemma ExecutedIsOnlyService(a: Rows, b: Rows, s: ServiceId)
    requires ExecutedWithin(a, b, s)
    ensures OnlyService(a, b, s)
    ensures AllFinished(a, s) ==> AllFinished(b, s)
  {
    hide Executed;
    ExecutedKeepsService(a, b);
    ExecutedKeepsFinished(a, b);
  }

  lemma ExecutedKeepsFinished(a: Rows, b: Rows)
    requires a.Keys == b.Keys && forall id :: id in a ==> Executed(a[id], b[id])
    ensures forall id :: id in a && !InUse(a[id].actual) ==> !InUse(b[id].actual)
    ensures forall id :: id in a ==> b[id].desired == a[id].desired
  {
  }

  const SERVICE_KINDS := {KCreate, KReserve, KRunning, KFail, KStop, KDesired, KEnvironment}

  /** No workload of the service was created or newly asked to stop. */
  ghost predicate NotSteered(before: Rows, after: Rows, s: ServiceId) {
    forall id :: id in after && after[id].service == s ==>
      id in before && (after[id].desired.Stopped? ==> before[id].desired.Stopped?)
  }

  /** Transactions that neither create workloads nor set desired states steer nobody. */
  lemma KindsSteerNobody(t: Cluster, before: seq<Event>, after: seq<Event>, kinds: set<Kind>, s: ServiceId)
    requires Grew(before, after, kinds) && KCreate !in kinds && KDesired !in kinds
    ensures SteersOnly(t, after, |before|, s) && Leaves(t, after, |before|, |after|, s)
  {
    hide Run;
  }

  // ---- A service being deleted ----

  /** What is in use is asked to stop, and then the executor passes over the service, deleted or not. */
  method DeletingPhase(store: Postgres, client: NodeClient, s: Service)
    returns (ghost ws: seq<Workload>, ghost stretches: seq<seq<Answer>>)
    requires store.Valid() && s.status.Deleting?
    modifies store, client
    ensures store.Valid() && store.origin == old(store.origin)
    ensures Grew(old(store.log), store.log, SERVICE_KINDS)
    ensures OnlyService(old(store.workloads), store.workloads, s.id)
    ensures client.reliable || AllFinished(old(store.workloads), s.id) ==> AllFinished(store.workloads, s.id)
    ensures store.services ==
      if AllFinished(old(store.workloads), s.id) && s.id in old(store.services)
      then old(store.services)[s.id := WithDeleted(old(store.services)[s.id])]
      else old(store.services)
    ensures SteersOnly(store.origin, store.log, |old(store.log)|, s.id)
    ensures PassedOver(s.id, DrainMarked(old(store.workloads), s.id), store.workloads, ws, stretches)
    ensures client.trace == old(client.trace) + Flatten(stretches)
  {
    hide Run, LawfulRun, Executed, SteersOnly, PassedOver, Flatten;
    var _ := ReconcileDeletion(store, s);
    ghost var mid, log := store.workloads, store.log;
    DrainFrame(old(store.workloads), s.id);
    ws, stretches := ExecuteScheduledWorkloads(store, client, s.id);
    KindsSteerNobody(store.origin, log, store.log, EXECUTOR_KINDS, s.id);
    SteersOnlyThrough(store.origin, log, store.log, |old(store.log)|, s.id);
    ExecutedIsOnlyService(mid, store.workloads, s.id);
    OnlyServiceTwice(old(store.workloads), mid, store.workloads, s.id);
    if client.reliable {
      ExecutedKeepsFinished(mid, store.workloads);
      forall id | id in store.workloads && store.workloads[id].service == s.id
        ensures !InUse(store.workloads[id].actual)
      {
        assert InUse(mid[id].actual) ==> mid[id].desired.Stopped?;
      }
    }
  }

  lemma DrainFrame(rows: Rows, s: ServiceId)
    ensures OnlyService(rows, DrainMarked(rows, s), s)
    ensures AllFinished(rows, s) ==> AllFinished(DrainMarked(rows, s), s)
    ensures forall id :: id in rows && rows[id].service == s && InUse(DrainMarked(rows, s)[id].actual) ==>
      DrainMarked(rows, s)[id].desired.Stopped?
  {
  }

  // ---- An active service ----

  /**
    `cut` says where in the log the two controllers were called; from there on every row listed has its turn in
    the scheduling loop, and that is all that is asked of the node agents.
   */
  method ActivePhase(store: Postgres, client: NodeClient, s: Service, now: int, timeout: int)
    returns (ghost cut: Cut, ghost ws: seq<Workload>, ghost at: seq<nat>, ghost stretches: seq<seq<Answer>>)
    requires store.Valid() && s.status.Active?
    modifies store, client
    ensures store.Valid() && store.origin == old(store.origin)
    ensures Grew(old(store.log), store.log, SERVICE_KINDS)
    ensures OnlyService(old(store.workloads), store.workloads, s.id)
    ensures s.deployment.DeploymentFailed? ==>
      store.services == old(store.services) && NotSteered(old(store.workloads), store.workloads, s.id)
    ensures var v := StatusVerdict(s, store.workloads, now, timeout);
      store.services ==
        if v.Some? && s.id in old(store.services)
        then old(store.services)[s.id := WithDeployment(old(store.services)[s.id], v.value)]
        else old(store.services)
    ensures SteersOnly(store.origin, store.log, |old(store.log)|, s.id)
    ensures Watched(s, store.origin, store.log, |old(store.log)|, cut) && cut.start == |old(store.log)|
    ensures client.reliable && SmoothSince(s.id, store.origin, store.log, |old(store.log)|) ==>
      (AllRising(old(store.workloads), s.id) ==> AllUp(store.workloads, s.id))
    ensures Turns(s.id, store.origin, store.log, ws, at, stretches) && at[0] == cut.scaled
    ensures client.trace == old(client.trace) + Flatten(stretches)
  {
    hide Run, LawfulRun, Sound, SteersOnly, RolledOut, Leaves, NotSteered, AllRising, AllUp, SmoothSince;
    hide DeployMove, ReplicaMove, OnlyService, ScheduledWithin, Turns, Flatten, Lists;
    ghost var r0, l0, t0 := store.workloads, store.log, store.Now();
    store.TablesKeyed();
    var _, action := ReconcileDeployment(store, s);
    ghost var r1, l1, t1 := store.workloads, store.log, store.Now();
    store.TablesKeyed();
    ghost var listed := ReconcileReplicas(store, s);
    ghost var r2, l2, t2 := store.workloads, store.log, store.Now();
    ws, at, stretches := SchedulePendingWorkloads(store, client, s.id);
    TurnsStart(s.id, store.origin, store.log, ws, at, stretches);
    PhaseRows(s, action, listed, r0, r1, r2, store.workloads);
    if SmoothSince(s.id, store.origin, store.log, |l0|) {
      SmoothCut(s.id, store.origin, l2, store.log, |l0|);
    }
    KindsSteerNobody(store.origin, l2, store.log, SCHEDULING_KINDS, s.id);
    SteersOnlyThrough(store.origin, l1, l2, |l0|, s.id);
    SteersOnlyThrough(store.origin, l2, store.log, |l0|, s.id);
    cut := Cut(|l0|, |l1|, |l2|);
    PhaseWatched(s, action, listed, store.origin, l0, l1, l2, store.log);
    ReconcileStatus(store, s, now, timeout);
  }

  lemma TurnsStart(s: ServiceId, t: Cluster, es: seq<Event>, ws: seq<Workload>, at: seq<nat>,
                   stretches: seq<seq<Answer>>)
    requires Turns(s, t, es, ws, at, stretches)
    ensures |at| > 0
  {
  }

  lemma DeployRises(s: Service, action: Action, before: Rows, after: Rows)
    requires DeployMove(s, action, before, after) && AllRising(before, s.id)
    ensures AllRising(after, s.id)
  {
  }

  lemma ReplicasRise(s: Service, ws: seq<Workload>, before: Rows, after: Rows)
    requires ReplicaMove(s, ws, before, after) && AllRising(before, s.id)
    ensures AllRising(after, s.id)
  {
    hide Census, ScaleDownCandidates, IdsOf;
  }

  lemma PhaseRows(s: Service, action: Action, ws: seq<Workload>, r0: Rows, r1: Rows, r2: Rows, r3: Rows)
    requires Keyed(r0) && DeployMove(s, action, r0, r1)
    requires Keyed(r1) && Lists(ws, r1, s.id) && ReplicaMove(s, ws, r1, r2)
    requires ScheduledWithin(r2, r3, s.id)
    ensures OnlyService(r0, r3, s.id)
    ensures s.deployment.DeploymentFailed? ==> NotSteered(r0, r3, s.id)
    ensures AllRising(r0, s.id) ==> AllRising(r2, s.id)
  {
    if AllRising(r0, s.id) {
      DeployRises(s, action, r0, r1);
      ReplicasRise(s, ws, r1, r2);
    }
    DeployMoveFrame(s, action, r0, r1);
    ReplicaMoveFrame(s, ws, r1, r2);
    OnlyServiceTwice(r0, r1, r2, s.id);
    ScheduledIsOnlyService(r2, r3, s.id);
    OnlyServiceTwice(r0, r2, r3, s.id);
    hide DeployMove, ReplicaMove;
  }

  lemma LeavesNothing(t: Cluster, es: seq<Event>, k: nat, s: ServiceId)
    requires k <= |es|
    ensures Leaves(t, es, k, k, s)
  {
  }

  lemma PhaseWatched(s: Service, action: Action, ws: seq<Workload>, origin: Cluster,
                     l0: seq<Event>, l1: seq<Event>, l2: seq<Event>, l3: seq<Event>)
    requires l0 <= l1 <= l2 <= l3 && Leaves(origin, l3, |l2|, |l3|, s.id)
    requires Run(origin, l1).nodes == Run(origin, l0).nodes && Run(origin, l2).nodes == Run(origin, l1).nodes
    requires DeployMove(s, action, Run(origin, l0).workloads, Run(origin, l1).workloads)
    requires Lists(ws, Run(origin, l1).workloads, s.id)
    requires ReplicaMove(s, ws, Run(origin, l1).workloads, Run(origin, l2).workloads)
    ensures Watched(s, origin, l3, |l0|, Cut(|l0|, |l1|, |l2|))
  {
    hide Run, Leaves, DeployMove, ReplicaMove, Lists, Lawful, Neutral, Step;
    assert l3[..|l0|] == l0 && l3[..|l1|] == l1 && l3[..|l2|] == l2;
    LeavesNothing(origin, l3, |l0|, s.id);
    assert Moves(s, Deploy(action), Run(origin, l0), Run(origin, l1));
  }

  // ---- The services ----

  /**
    Where a service stands during the service phase, `r` being the rows the phase began with. A deletion is
    only finished once nothing of the service was in use; a failed deployment is left alone.
   */
  ghost predicate Stands(s: Service, r: Rows, rows: Rows, services: ServiceRows, reliable: bool, done: bool) {
    && s.id in services
    && (!done ==> services[s.id] == s)
    && (s.status.Deleting? ==>
         && (AllFinished(r, s.id) ==> AllFinished(rows, s.id))
         && (done && reliable ==> AllFinished(rows, s.id))
         && (done && AllFinished(r, s.id) ==> services[s.id].status.Deleted?)
         && (services[s.id].status.Deleted? ==> AllFinished(rows, s.id))
         && !services[s.id].status.Active?)
    && (s.status.Deleted? ==> services[s.id] == s)
    && (s.status.Active? ==> services[s.id] == WithDeployment(s, services[s.id].deployment))
    && (s.status.Active? && s.deployment.DeploymentFailed? ==> NotSteered(r, rows, s.id) && services[s.id] == s)
  }

  lemma StandsBesideOthers(s: Service, o: ServiceId, r: Rows, rows: Rows, rows': Rows,
                           services: ServiceRows, services': ServiceRows, reliable: bool, done: bool)
    requires Stands(s, r, rows, services, reliable, done) && s.id != o
    requires OnlyService(rows, rows', o)
    requires s.id in services' && services'[s.id] == services[s.id]
    ensures Stands(s, r, rows', services', reliable, done)
  {
    forall id | id in rows' && rows'[id].service == s.id ensures id in rows && rows'[id] == rows[id] {
    }
    if AllFinished(rows, s.id) { assert AllFinished(rows', s.id); }
    if NotSteered(r, rows, s.id) { assert NotSteered(r, rows', s.id); }
  }

  method ServiceStep(store: Postgres, client: NodeClient, s: Service, now: int, timeout: int, ghost r: Rows)
    returns (ghost cut: Cut)
    requires store.Valid() && Stands(s, r, store.workloads, store.services, client.reliable, false)
    modifies store, client
    ensures store.Valid() && store.origin == old(store.origin)
    ensures Grew(old(store.log), store.log, SERVICE_KINDS)
    ensures OnlyService(old(store.workloads), store.workloads, s.id)
    ensures store.services.Keys == old(store.services).Keys
    ensures forall o :: o in store.services && o != s.id ==> store.services[o] == old(store.services)[o]
    ensures Stands(s, r, store.workloads, store.services, client.reliable, true)
    ensures store.services[s.id].id == s.id
    ensures SteersOnly(store.origin, store.log, |old(store.log)|, s.id)
    ensures s.status.Deleted? ==> store.log == old(store.log) && client.trace == old(client.trace)
    ensures s.status.Active? ==>
      Watched(s, store.origin, store.log, |old(store.log)|, cut) && cut.start == |old(store.log)|
    ensures s.status.Active? && client.reliable && SmoothSince(s.id, store.origin, store.log, |old(store.log)|) ==>
      (AllRising(old(store.workloads), s.id) ==> AllUp(store.workloads, s.id))
  {
    hide Run, LawfulRun, Sound, SteersOnly, Watched, StatusVerdict, SmoothSince, AllRising, AllUp;
    cut := Cut(0, 0, 0);
    NothingSteered(store.origin, store.log, s.id);
    if s.status.Deleting? {
      ghost var _, _ := DeletingPhase(store, client, s);
      return;
    }
    if s.status != Active {
      assert OnlyService(store.workloads, store.workloads, s.id);
      return;
    }
    ghost var c, _, _, _ := ActivePhase(store, client, s, now, timeout);
    cut := c;
  }

  // ---- The cycle ----

  /** Nothing the service phase writes puts work on a vacant node that is not ready. */
  lemma VacantToTheEnd(origin: Cluster, es: seq<Event>, mid: nat, n: NodeId)
    requires Sound(origin) && LawfulRun(origin, es) && mid <= |es|
    requires forall i :: mid <= i < |es| ==> KindOf(es[i]) in SERVICE_KINDS
    requires OutSince(origin, es, mid, n) && VacantAt(origin, es, mid, n)
    ensures VacantAt(origin, es, |es|, n)
  {
    hide Run, LawfulRun, Sound, VacantAt, OutSince;
    forall k | mid <= k < |es| ensures !Revives(Run(origin, es[..k]), es[k], n) {
      assert KindOf(es[k]) in SERVICE_KINDS;
    }
    RunKeepsVacant(origin, es, mid, n);
  }

  /**
    If nodes that were unhealthy at the start are vacant once the node phase is over, and statuses stay as they
    are, then every node that is unhealthy at the end is vacant.
   */
  lemma VacantAtTheEnd(origin: Cluster, es: seq<Event>, start: nat, mid: nat)
    requires Sound(origin) && LawfulRun(origin, es) && start <= mid <= |es|
    requires SteadySince(origin, es, start)
    requires forall i :: mid <= i < |es| ==> KindOf(es[i]) in SERVICE_KINDS
    requires forall n :: n in Run(origin, es[..start]).nodes && Run(origin, es[..start]).nodes[n].status.Unhealthy? ==>
      VacantAt(origin, es, mid, n)
    ensures forall n :: n in Run(origin, es).nodes && Run(origin, es).nodes[n].status.Unhealthy? ==>
      OccupyingOn(Run(origin, es).workloads, n) == {}
  {
    hide Run, LawfulRun, Sound, SteadySince;
    assert es[..|es|] == es;
    forall n | n in Run(origin, es).nodes && Run(origin, es).nodes[n].status.Unhealthy?
      ensures OccupyingOn(Run(origin, es).workloads, n) == {}
    {
      SteadyNodes(origin, es, start, |es|, n);
      if n in Run(origin, es[..start]).nodes {
        forall k | mid <= k <= |es|
          ensures n in Run(origin, es[..k]).nodes && !Run(origin, es[..k]).nodes[n].status.Ready?
        {
          SteadyNodes(origin, es, start, k, n);
        }
        VacantToTheEnd(origin, es, mid, n);
      }
    }
  }

  lemma WorkLeftNodes(origin: Cluster, before: seq<Event>, mid: seq<Event>, after: seq<Event>)
    requires Sound(origin) && LawfulRun(origin, after) && before <= mid && Grew(mid, after, SERVICE_KINDS)
    requires forall n :: n in Run(origin, before).nodes && Run(origin, before).nodes[n].status.Unhealthy? ==>
      OccupyingOn(Run(origin, mid).workloads, n) == {}
    ensures forall n :: n in Run(origin, before).nodes && Run(origin, before).nodes[n].status.Unhealthy? ==>
      (OutSince(origin, after, |before|, n) ==> OccupyingOn(Run(origin, after).workloads, n) == {})
    ensures SteadySince(origin, after, |before|) ==>
      forall n :: n in Run(origin, after).nodes && Run(origin, after).nodes[n].status.Unhealthy? ==>
        OccupyingOn(Run(origin, after).workloads, n) == {}
  {
    hide Run, LawfulRun, Sound, SteadySince;
    assert after[..|before|] == before && after[..|mid|] == mid && after[..|after|] == after;
    forall n | n in Run(origin, before).nodes && Run(origin, before).nodes[n].status.Unhealthy? &&
      OutSince(origin, after, |before|, n)
      ensures OccupyingOn(Run(origin, after).workloads, n) == {}
    {
      assert OutSince(origin, after, |mid|, n);
      VacantToTheEnd(origin, after, |mid|, n);
    }
    if SteadySince(origin, after, |before|) {
      VacantAtTheEnd(origin, after, |before|, |mid|);
    }
  }

  /** What the places of all services at the end of a cycle say about deletions and failed deployments. */
  lemma CycleConcludes(before: ServiceRows, rows0: Rows, r: Rows, rows: Rows, after: ServiceRows,
                       listings: Listings, reliable: bool)
    requires before.Keys == after.Keys && rows0.Keys == r.Keys
    requires forall s :: s in before ==> before[s].id == s
    requires forall id :: id in r ==> NodePhased(rows0[id], r[id], listings)
    requires forall s :: s in before ==> Stands(before[s], r, rows, after, reliable, true)
    ensures forall s :: s in after && before[s].status.Deleting? && reliable ==> AllFinished(rows, s)
    ensures forall s :: s in after && before[s].status.Deleting? && FinishedForGood(rows0, s, listings) ==>
      after[s].status.Deleted?
    ensures forall s :: s in after && after[s].status.Deleted? && !before[s].status.Deleted? ==>
      before[s].status.Deleting? && AllFinished(rows, s)
    ensures forall s :: s in after && Doomed(before[s]) ==> after[s] == before[s] && NotSteered(rows0, rows, s)
    ensures forall s :: s in after && before[s].status.Deleted? ==> after[s] == before[s]
    ensures forall s :: s in after ==> (before[s].status.Active? <==> after[s].status.Active?)
    ensures forall s :: s in after && before[s].status.Active? ==>
      after[s] == WithDeployment(before[s], after[s].deployment)
  {
    hide AllFinished, NotSteered, FinishedForGood, NodePhased;
    forall s | s in after && FinishedForGood(rows0, s, listings) ensures AllFinished(r, s) {
      FinishedStays(rows0, r, s, listings);
    }
    forall s | s in after && NotSteered(r, rows, s) ensures NotSteered(rows0, rows, s) {
      NotSteeredSince(rows0, r, rows, s, listings);
    }
  }

  lemma FinishedStays(rows0: Rows, r: Rows, s: ServiceId, listings: Listings)
    requires rows0.Keys == r.Keys && FinishedForGood(rows0, s, listings)
    requires forall id :: id in r ==> NodePhased(rows0[id], r[id], listings)
    ensures AllFinished(r, s)
  {
    hide StaysDown;
  }

  lemma NotSteeredSince(rows0: Rows, r: Rows, rows: Rows, s: ServiceId, listings: Listings)
    requires rows0.Keys == r.Keys && NotSteered(r, rows, s)
    requires forall id :: id in r ==> NodePhased(rows0[id], r[id], listings)
    ensures NotSteered(rows0, rows, s)
  {
    hide StaysDown;
  }

  /** Service `s` has not been steered since the service phase began with rows `r`, nor its rows touched. */
  ghost predicate Awaiting(s: ServiceId, origin: Cluster, es: seq<Event>, from: nat, r: Rows, rows: Rows) {
    from <= |es| && Leaves(origin, es, from, |es|, s) && SameRows(r, rows, s)
  }

  /**
    Service `s` has had its turn: where the cut says, on the rows `r` the phase began with; and if things went
    smoothly, what was rising is up.
   */
  ghost predicate Served(s: Service, origin: Cluster, es: seq<Event>, from: nat, cut: Cut, r: Rows, rows: Rows,
                         reliable: bool) {
    && Watched(s, origin, es, from, cut) && cut.start <= |es| && from <= |es|
    && SameRows(r, Run(origin, es[..cut.start]).workloads, s.id)
    && (reliable && SmoothSince(s.id, origin, es, from) && AllRising(r, s.id) ==> AllUp(rows, s.id))
  }

  lemma AwaitingOn(s: ServiceId, o: ServiceId, origin: Cluster, es: seq<Event>, more: seq<Event>, from: nat,
                   r: Rows, before: Rows, after: Rows)
    requires Awaiting(s, origin, es, from, r, before) && es <= more && o != s
    requires SteersOnly(origin, more, |es|, o) && OnlyService(before, after, o)
    ensures Awaiting(s, origin, more, from, r, after)
  {
    hide Run, Leaves, SameRows, SteersOnly, OnlyService;
    LeavesOn(origin, es, more, from, s, o);
    SameBesideOthers(r, before, after, s, o);
  }

  lemma ServedOn(s: Service, o: ServiceId, origin: Cluster, es: seq<Event>, more: seq<Event>, from: nat, cut: Cut,
                 r: Rows, before: Rows, after: Rows, reliable: bool)
    requires Served(s, origin, es, from, cut, r, before, reliable) && es <= more && o != s.id
    requires SteersOnly(origin, more, |es|, o) && OnlyService(before, after, o)
    ensures Served(s, origin, more, from, cut, r, after, reliable)
  {
    hide Run, Watched, SameRows, SteersOnly, OnlyService, SmoothSince, AllRising, AllUp;
    WatchedLater(s, origin, es, more, from, cut, o);
    UpBesideOthers(before, after, s.id, o);
    if SmoothSince(s.id, origin, more, from) { SmoothCut(s.id, origin, es, more, from); }
    assert more[..cut.start] == es[..cut.start];
  }

  lemma ServedNow(s: Service, origin: Cluster, es: seq<Event>, more: seq<Event>, from: nat, cut: Cut,
                  r: Rows, before: Rows, after: Rows, reliable: bool)
    requires Awaiting(s.id, origin, es, from, r, before) && es <= more && before == Run(origin, es).workloads
    requires Watched(s, origin, more, |es|, cut) && cut.start == |es|
    requires reliable && SmoothSince(s.id, origin, more, |es|) ==> (AllRising(before, s.id) ==> AllUp(after, s.id))
    ensures Served(s, origin, more, from, cut, r, after, reliable)
  {
    hide Run, Watched, SameRows, SmoothSince, AllRising, AllUp, Leaves;
    LeavesLater(origin, es, more, from, |es|, s.id);
    WatchedEarlier(s, origin, more, from, |es|, cut);
    assert more[..cut.start] == es;
    if SmoothSince(s.id, origin, more, from) { SmoothCut(s.id, origin, es, more, from); }
    SameRising(r, before, s.id);
  }

  /** All services in turn, each as it was read. */
  method ServicePhase(store: Postgres, client: NodeClient, ss: seq<Service>, now: int, timeout: int,
                      ghost watch: ServiceId)
    returns (ghost cut: Cut)
    requires store.Valid()
    requires forall s :: s in store.services ==> store.services[s].id == s
    requires forall i, j :: 0 <= i < j < |ss| ==> ss[i].id != ss[j].id
    requires forall i :: 0 <= i < |ss| ==> ss[i].id in store.services && store.services[ss[i].id] == ss[i]
    modifies store, client
    ensures store.Valid() && store.origin == old(store.origin)
    ensures Grew(old(store.log), store.log, SERVICE_KINDS)
    ensures store.services.Keys == old(store.services).Keys
    ensures forall s :: s in store.services ==> store.services[s].id == s
    ensures forall j :: 0 <= j < |ss| ==>
      Stands(ss[j], old(store.workloads), store.workloads, store.services, client.reliable, true)
    ensures forall j :: 0 <= j < |ss| && ss[j].id == watch && ss[j].status.Active? ==>
      Served(ss[j], store.origin, store.log, |old(store.log)|, cut, old(store.workloads), store.workloads,
        client.reliable)
  {
    hide Run, LawfulRun, Sound, Stands, OnlyService, Watched, SteersOnly, Leaves;
    hide SmoothSince, AllRising, AllUp, Served, Awaiting;
    ghost var r, l0 := store.workloads, store.log;
    cut := Cut(0, 0, 0);
    AwaitingAtFirst(watch, store.origin, l0, r);
    ServicesStandAtFirst(ss, r, store.services, client.reliable);
    for k := 0 to |ss|
      invariant store.Valid() && store.origin == old(store.origin)
      invariant Grew(l0, store.log, SERVICE_KINDS)
      invariant store.services.Keys == old(store.services).Keys
      invariant forall s :: s in store.services ==> store.services[s].id == s
      invariant forall j :: 0 <= j < |ss| ==> Stands(ss[j], r, store.workloads, store.services, client.reliable, j < k)
      invariant (forall j :: 0 <= j < k ==> ss[j].id != watch) ==>
        Awaiting(watch, store.origin, store.log, |l0|, r, store.workloads)
      invariant forall j :: 0 <= j < k && ss[j].id == watch && ss[j].status.Active? ==>
        Served(ss[j], store.origin, store.log, |l0|, cut, r, store.workloads, client.reliable)
    {
      ghost var rows, services, log := store.workloads, store.services, store.log;
      ghost var c := ServiceStep(store, client, ss[k], now, timeout, r);
      forall j | 0 <= j < |ss| && j != k
        ensures Stands(ss[j], r, store.workloads, store.services, client.reliable, j < k + 1)
      {
        Standing(ss[j], r, rows, services, client.reliable, j < k);
        StandsBesideOthers(ss[j], ss[k].id, r, rows, store.workloads, services, store.services, client.reliable, j < k);
      }
      if ss[k].id != watch {
        if forall j :: 0 <= j < k ==> ss[j].id != watch {
          AwaitingOn(watch, ss[k].id, store.origin, log, store.log, |l0|, r, rows, store.workloads);
        }
        forall j | 0 <= j < k && ss[j].id == watch && ss[j].status.Active?
          ensures Served(ss[j], store.origin, store.log, |l0|, cut, r, store.workloads, client.reliable)
        {
          ServedOn(ss[j], ss[k].id, store.origin, log, store.log, |l0|, cut, r, rows, store.workloads, client.reliable);
        }
      } else if ss[k].status.Active? {
        ServedNow(ss[k], store.origin, log, store.log, |l0|, c, r, rows, store.workloads, client.reliable);
        cut := c;
      }
    }
  }

  lemma AwaitingAtFirst(s: ServiceId, origin: Cluster, es: seq<Event>, r: Rows)
    ensures Awaiting(s, origin, es, |es|, r, r)
  {
  }

  /** The rows of the service are the same ones, and as they were. */
  ghost predicate SameRows(a: Rows, b: Rows, s: ServiceId) {
    && (forall id :: id in a && a[id].service == s ==> id in b && b[id] == a[id])
    && (forall id :: id in b && b[id].service == s ==> id in a && b[id] == a[id])
  }

  lemma SameBesideOthers(r: Rows, a: Rows, b: Rows, s: ServiceId, o: ServiceId)
    requires SameRows(r, a, s) && OnlyService(a, b, o) && o != s
    ensures SameRows(r, b, s)
  {
  }

  lemma UpBesideOthers(a: Rows, b: Rows, s: ServiceId, o: ServiceId)
    requires OnlyService(a, b, o) && o != s
    ensures AllUp(a, s) ==> AllUp(b, s)
  {
  }

  lemma SameRising(a: Rows, b: Rows, s: ServiceId)
    requires SameRows(a, b, s)
    ensures AllRising(a, s) ==> AllRising(b, s)
    ensures AllUp(a, s) ==> AllUp(b, s)
  {
  }

  lemma LeavesOn(t: Cluster, es: seq<Event>, more: seq<Event>, from: nat, s: ServiceId, o: ServiceId)
    requires es <= more && Leaves(t, es, from, |es|, s) && SteersOnly(t, more, |es|, o) && o != s
    ensures Leaves(t, more, from, |more|, s)
  {
    hide Run, SteersFor;
    LeavesLater(t, es, more, from, |es|, s);
  }

  /**
    One cycle. Provided no ready node reports a container of a workload on an unhealthy node as alive, a node
    that was unhealthy and did not become ready meanwhile has no workload in use afterwards; with steady
    statuses, that is every unhealthy node. A service being deleted has nothing left in use if the node agents
    do as asked, and is deleted if nothing was in use when the cycle began and none of its containers was
    reported alive. A failed deployment gets no new workload and no new stop request. An active service is
    steered by one call of each controller only; `cut` says where those of service `watch` are in the log.
   */
  method Reconcile(store: Postgres, client: NodeClient, now: int, timeout: int, ghost watch: ServiceId)
    returns (ghost cut: Cut)
    requires store.Valid()
    requires forall s :: s in store.services ==> store.services[s].id == s
    requires forall m :: m in client.listings ==> UniqueListing(client.listings[m])
    modifies store, client
    ensures store.Valid() && store.origin == old(store.origin)
    ensures Grew(old(store.log), store.log, NODE_KINDS + SERVICE_KINDS)
    ensures store.services.Keys == old(store.services).Keys
    ensures forall s :: s in store.services ==> store.services[s].id == s
    ensures NoneStrayed(old(store.nodes), old(store.workloads), client.listings) ==>
      forall n :: n in old(store.nodes) && old(store.nodes)[n].status.Unhealthy? ==>
        (OutSince(store.origin, store.log, |old(store.log)|, n) ==> OccupyingOn(store.workloads, n) == {})
    ensures NoneStrayed(old(store.nodes), old(store.workloads), client.listings) ==>
      forall n :: n in store.nodes && store.nodes[n].status.Unhealthy? ==>
        (SteadySince(store.origin, store.log, |old(store.log)|) ==> OccupyingOn(store.workloads, n) == {})
    ensures forall s :: s in store.services && old(store.services)[s].status.Deleting? && client.reliable ==>
      AllFinished(store.workloads, s)
    ensures forall s :: s in store.services && FinishedForGood(old(store.workloads), s, client.listings) ==>
      (old(store.services)[s].status.Deleting? ==> store.services[s].status.Deleted?)
    ensures forall s :: s in store.services && store.services[s].status.Deleted? ==>
      old(store.services)[s].status.Deleted? ||
      (old(store.services)[s].status.Deleting? && AllFinished(store.workloads, s))
    ensures forall s :: s in store.services && Doomed(old(store.services)[s]) ==>
      store.services[s] == old(store.services)[s] && NotSteered(old(store.workloads), store.workloads, s)
    ensures forall s :: s in store.services && old(store.services)[s].status.Deleted? ==>
      store.services[s] == old(store.services)[s]
    ensures forall s :: s in store.services ==>
      (old(store.services)[s].status.Active? <==> store.services[s].status.Active?)
    ensures forall s :: s in store.services && old(store.services)[s].status.Active? ==>
      store.services[s] == WithDeployment(old(store.services)[s], store.services[s].deployment)
    ensures ActiveIn(old(store.services), watch) ==>
      Watched(old(store.services)[watch], store.origin, store.log, |old(store.log)|, cut)
    ensures ActiveIn(old(store.services), watch) && Healthy(watch, old(store.Now()), client.listings) ==>
      && cut.start <= |store.log|
      && (AllUp(old(store.workloads), watch) ==> AllUp(Run(store.origin, store.log[..cut.start]).workloads, watch))
      && (client.reliable && SmoothSince(watch, store.origin, store.log, |old(store.log)|) ==>
            AllUp(store.workloads, watch))
  {
    hide Run, LawfulRun, Sound, NodePhased, Stands, NoneStrayed, OnlyService, UniqueListing;
    hide OutSince, SteadySince, Watched, Leaves, RowHealthy, Fares, AllUp, AllRising, SmoothSince, Served, Healthy;
    var ss := store.ListServices();
    var ns := store.ListNodes();
    ghost var _, _ := NodePhase(store, client, ns);
    ghost var r, mid := store.workloads, store.log;
    assert Run(store.origin, mid).workloads == r;
    if Healthy(watch, old(store.Now()), client.listings) {
      HealthyFares(watch, store.origin, old(store.log), r, client.listings);
    }
    cut := ServicePhase(store, client, ss, now, timeout, watch);
    KindsSteerNobody(store.origin, old(store.log), mid, NODE_KINDS, watch);
    LeavesLater(store.origin, mid, store.log, |old(store.log)|, |mid|, watch);
    if NoneStrayed(old(store.nodes), old(store.workloads), client.listings) {
      WorkLeftNodes(store.origin, old(store.log), mid, store.log);
    }
    forall s | s in store.services
      ensures Stands(old(store.services)[s], r, store.workloads, store.services, client.reliable, true)
    {
      assert old(store.services)[s] in ss;
    }
    if ActiveIn(old(store.services), watch) {
      assert old(store.services)[watch] in ss;
      WatchConcludes(old(store.services)[watch], store.origin, old(store.log), mid, store.log, cut, r, store.workloads,
        client.reliable);
    }
    CycleConcludes(old(store.services), old(store.workloads), r, store.workloads, store.services,
      client.listings, client.reliable);
  }

  /** All is well with the workloads of the service when the cycle begins, as far as the nodes are concerned. */
  ghost predicate Healthy(s: ServiceId, t: Cluster, listings: Listings) {
    forall id :: id in t.workloads && t.workloads[id].service == s ==> RowHealthy(t.workloads[id], t.nodes, listings)
  }

  lemma HealthyFares(s: ServiceId, origin: Cluster, before: seq<Event>, r: Rows, listings: Listings)
    requires Sound(origin) && LawfulRun(origin, before)
    requires var t := Run(origin, before);
      && Healthy(s, t, listings) && t.workloads.Keys == r.Keys
      && forall id :: id in r ==>
           && NodePhased(t.workloads[id], r[id], listings)
           && (RowHealthy(t.workloads[id], t.nodes, listings) ==> Fares(t.workloads[id], r[id], t.nodes, true))
    ensures AllUp(Run(origin, before).workloads, s) ==> AllUp(r, s)
    ensures AllRising(r, s)
  {
    hide Run, LawfulRun, Fares, RowHealthy, Up, Rising, Lifecycle;
    RunSound(origin, before);
    var t := Run(origin, before);
    forall id | id in r && r[id].service == s
      ensures Rising(r[id]) && (Up(t.workloads[id]) ==> Up(r[id])) && t.workloads[id].service == s
    {
      assert NodePhased(t.workloads[id], r[id], listings);
      FaredWell(t.workloads[id], r[id], t.nodes);
    }
  }

  lemma WatchConcludes(s: Service, origin: Cluster, before: seq<Event>, mid: seq<Event>, after: seq<Event>, cut: Cut,
                       r: Rows, rows: Rows, reliable: bool)
    requires before <= mid <= after && Leaves(origin, after, |before|, |mid|, s.id)
    requires Served(s, origin, after, |mid|, cut, r, rows, reliable)
    ensures Watched(s, origin, after, |before|, cut) && cut.start <= |after|
    ensures AllUp(r, s.id) ==> AllUp(Run(origin, after[..cut.start]).workloads, s.id)
    ensures reliable && SmoothSince(s.id, origin, after, |before|) && AllRising(r, s.id) ==> AllUp(rows, s.id)
  {
    hide Run, Watched, SameRows, SmoothSince, AllRising, AllUp, Leaves;
    WatchedEarlier(s, origin, after, |before|, |mid|, cut);
    SameRising(r, Run(origin, after[..cut.start]).workloads, s.id);
    if SmoothSince(s.id, origin, after, |before|) { SmoothCut(s.id, origin, mid, after, |before|); }
  }

  lemma CutInLog(s: Service, t: Cluster, es: seq<Event>, from: nat, cut: Cut)
    requires Watched(s, t, es, from, cut)
    ensures cut.start <= |es|
  {
  }

  predicate ActiveIn(services: ServiceRows, s: ServiceId) {
    s in services && services[s].status.Active?
  }

  predicate Doomed(s: Service) {
    s.status.Active? && s.deployment.DeploymentFailed?
  }

  /** Nothing of the service is in use, and none of its containers is reported alive. */
  ghost predicate FinishedForGood(rows: Rows, s: ServiceId, listings: Listings) {
    forall id :: id in rows && rows[id].service == s ==> !InUse(rows[id].actual) && StaysDown(rows[id], listings)
  }

  lemma Standing(s: Service, r: Rows, rows: Rows, services: ServiceRows, reliable: bool, done: bool)
    requires Stands(s, r, rows, services, reliable, done)
    ensures s.id in services
  {
  }

  lemma ServicesStandAtFirst(ss: seq<Service>, r: Rows, services: ServiceRows, reliable: bool)
    requires forall i :: 0 <= i < |ss| ==> ss[i].id in services && services[ss[i].id] == ss[i]
    ensures forall j :: 0 <= j < |ss| ==> Stands(ss[j], r, r, services, reliable, false)
  {
  }

  /**
    A service being deleted is deleted within two cycles if the node agents do as asked in the first, and
    none of the containers it leaves behind is reported alive in the second. Whether its nodes are healthy
    does not matter: `first` and `second` report whatever they report, and any node may be recovered. Between
    the cycles nodes and services may be written at will.
   */
  method DeleteInTwoCycles(store: Postgres, first: NodeClient, second: NodeClient, s: ServiceId,
                           now: int, later: int, timeout: int)
    returns (ghost between: Rows)
    requires store.Valid() && s in store.services && store.services[s].status.Deleting? && first.reliable
    requires forall o :: o in store.services ==> store.services[o].id == o
    requires forall m :: m in first.listings ==> UniqueListing(first.listings[m])
    requires forall m :: m in second.listings ==> UniqueListing(second.listings[m])
    modifies store, first, second
    ensures store.Valid() && s in store.services
    ensures AllFinished(between, s)
    ensures (forall id :: id in between && between[id].service == s ==> StaysDown(between[id], second.listings)) ==>
      store.services[s].status.Deleted?
  {
    hide Run, LawfulRun, Sound, StaysDown, NoneStrayed, UniqueListing, OutSince, SteadySince;
    ghost var _ := Reconcile(store, first, now, timeout, s);
    between := store.workloads;
    store.Interfere();
    store.InterfereWithServices();
    ghost var _ := Reconcile(store, second, later, timeout, s);
  }
}
