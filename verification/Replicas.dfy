/**
  The replica controller: bring the number of active workloads of a service to the desired number.
 */
module Replicas {
  import opened Model
  import opened Tables
  import opened Ledger
  import opened Store

  // ---- Specification ----

  /** Newest first: the candidates are taken from the end of the listing. */
  function ScaleDownCandidates(ws: seq<Workload>, n: nat): seq<Workload> {
    if |ws| == 0 || n == 0 then []
    else if IsActive(ws[|ws| - 1]) then [ws[|ws| - 1]] + ScaleDownCandidates(ws[..|ws| - 1], n - 1)
    else ScaleDownCandidates(ws[..|ws| - 1], n)
  }

  ghost predicate ScaledUp(s: Service, before: Rows, after: Rows, missing: nat) {
    && before.Keys <= after.Keys && |after| == |before| + missing
    && (forall id :: id in before ==> after[id] == before[id])
    && (forall id :: id in after && id !in before ==> after[id] == PendingRow(s, id))
  }

  ghost function StopMarked(rows: Rows, ids: set<WorkloadId>): Rows {
    map id | id in rows :: if id in ids then rows[id].(desired := Stopped) else rows[id]
  }

  /** What one call makes of the rows, given the listing it read. */
  ghost predicate ReplicaMove(s: Service, ws: seq<Workload>, before: Rows, after: Rows) {
    var active := Census(before, s.id, ReplicaActive(s.version));
    if !s.status.Active? || s.deployment.DeploymentFailed? || Census(before, s.id, OldActive(s.version)) > 0 then
      after == before
    else if active < s.desiredReplicas then ScaledUp(s, before, after, s.desiredReplicas - active)
    else if active == s.desiredReplicas || GateClosed(s, before) then after == before
    else after == StopMarked(before, IdsOf(ScaleDownCandidates(ws, active - s.desiredReplicas)))
  }

  /** No scale-down (except to zero) before some workload of the current version runs. */
  ghost predicate GateClosed(s: Service, rows: Rows) {
    Census(rows, s.id, RunningAt(s.version)) == 0 && s.desiredReplicas > 0
  }

  // ---- The controller ----

  /** The row asks for what the service asks for, and waits for a place. */
  predicate NewReplica(s: Service, id: WorkloadId, w: Workload) {
    && w.id == id && w.service == s.id && w.image == s.image && w.version == s.version
    && w.cpu == s.cpu && w.memory == s.memory
    && w.node == None && w.container == None && w.desired == Pending && w.actual == Pending && !w.held
  }

  /** New rows are new replicas of the service, and what was there stays or is asked to stop. */
  ghost predicate OnlyReplicas(s: Service, before: Rows, after: Rows) {
    && before.Keys <= after.Keys
    && (forall id :: id in after && id !in before ==> NewReplica(s, id, after[id]))
    && (forall id :: id in before ==> after[id] == before[id] || after[id] == before[id].(desired := Stopped))
  }

  method CountGroup(ws: seq<Workload>, g: Group) returns (count: nat)
    ensures count == |Filter(ws, g)|
  {
    count := 0;
    for k := 0 to |ws|
      invariant count == |Filter(ws[..k], g)|
    {
      assert ws[..k + 1][..k] == ws[..k];
      if In(g, ws[k]) { count := count + 1; }
    }
    assert ws[..|ws|] == ws;
  }

  method SelectScaleDownCandidates(ws: seq<Workload>, count: nat) returns (candidates: seq<Workload>)
    ensures candidates == ScaleDownCandidates(ws, count)
  {
    candidates := [];
    var i := |ws|;
    assert ws[..i] == ws;
    while i > 0 && |candidates| < count
      invariant 0 <= i <= |ws| && |candidates| <= count
      invariant candidates + ScaleDownCandidates(ws[..i], count - |candidates|) == ScaleDownCandidates(ws, count)
    {
      i := i - 1;
      assert ws[..i + 1][..i] == ws[..i];
      if IsActive(ws[i]) { candidates := candidates + [ws[i]]; }
    }
  }

  lemma OneMore(s: Service, first: Rows, rows: Rows, id: WorkloadId, k: nat)
    requires ScaledUp(s, first, rows, k) && id !in rows
    ensures ScaledUp(s, first, rows[id := PendingRow(s, id)], k + 1)
  {
    hide PendingRow;
  }

  method ScaleUp(store: Postgres, s: Service, missing: nat) returns (ok: bool)
    requires store.Valid()
    modifies store
    ensures store.Valid() && store.origin == old(store.origin) && store.services == old(store.services)
    ensures Grew(old(store.log), store.log, {KCreate})
    ensures ok && store.nodes == old(store.nodes) && ScaledUp(s, old(store.workloads), store.workloads, missing)
    ensures SteersOnly(store.origin, store.log, |old(store.log)|, s.id)
  {
    hide Run, LawfulRun, Sound, SteersOnly;
    NothingSteered(store.origin, store.log, s.id);
    ok := true;
    ghost var first := store.workloads;
    assert ScaledUp(s, first, store.workloads, 0);
    for k := 0 to missing
      invariant ok && store.Valid() && store.origin == old(store.origin) && store.services == old(store.services)
      invariant Grew(old(store.log), store.log, {KCreate})
      invariant store.nodes == old(store.nodes) && ScaledUp(s, first, store.workloads, k)
      invariant SteersOnly(store.origin, store.log, |old(store.log)|, s.id)
    {
      ghost var rows, log := store.workloads, store.log;
      var id := NewWorkloadId(store.workloads);
      OneMore(s, first, rows, id, k);
      ok := store.CreatePendingWorkload(PendingRow(s, id));
      assert store.workloads == rows[id := PendingRow(s, id)];
      SteersOnlySnoc(store.origin, log, Create(PendingRow(s, id)), |old(store.log)|, s.id);
    }
  }

  lemma MarkedAll(candidates: seq<Workload>, rows: Rows, after: Rows)
    requires after.Keys == rows.Keys && Distinct(candidates)
    requires forall i :: 0 <= i < |candidates| ==> candidates[i].id in rows && rows[candidates[i].id] == candidates[i]
    requires forall i :: 0 <= i < |candidates| ==> after[candidates[i].id] == candidates[i].(desired := Stopped)
    requires forall id :: id in rows && id !in IdsOf(candidates) ==> after[id] == rows[id]
    ensures after == StopMarked(rows, IdsOf(candidates))
  {
  }

  method MarkStopped(store: Postgres, candidates: seq<Workload>, s: ServiceId)
    requires store.Valid() && Distinct(candidates)
    requires forall i :: 0 <= i < |candidates| ==>
      candidates[i].id in store.workloads && store.workloads[candidates[i].id] == candidates[i] &&
      candidates[i].service == s && IsActive(candidates[i])
    modifies store
    ensures store.Valid() && store.origin == old(store.origin) && store.services == old(store.services)
    ensures Grew(old(store.log), store.log, {KDesired}) && store.nodes == old(store.nodes)
    ensures store.workloads == StopMarked(old(store.workloads), IdsOf(candidates))
    ensures SteersOnly(store.origin, store.log, |old(store.log)|, s)
  {
    hide Run, LawfulRun, Sound, SteersOnly, StopMarked;
    ghost var rows := store.workloads;
    NothingSteered(store.origin, store.log, s);
    for k := 0 to |candidates|
      invariant store.Valid() && store.origin == old(store.origin) && store.services == old(store.services)
      invariant Grew(old(store.log), store.log, {KDesired}) && store.nodes == old(store.nodes)
      invariant store.workloads.Keys == rows.Keys
      invariant forall i :: 0 <= i < k ==> store.workloads[candidates[i].id] == candidates[i].(desired := Stopped)
      invariant forall i :: k <= i < |candidates| ==> store.workloads[candidates[i].id] == candidates[i]
      invariant forall id :: id in rows && id !in IdsOf(candidates) ==> store.workloads[id] == rows[id]
      invariant SteersOnly(store.origin, store.log, |old(store.log)|, s)
    {
      assert candidates[k].id in IdsOf(candidates);
      SteersOnlySnoc(store.origin, store.log, SetDesired(candidates[k].id, Stopped), |old(store.log)|, s);
      store.UpdateWorkloadDesiredState(candidates[k].id, Stopped);
    }
    MarkedAll(candidates, rows, store.workloads);
  }

  method ReconcileReplicas(store: Postgres, s: Service) returns (ghost ws: seq<Workload>)
    requires store.Valid()
    modifies store
    ensures store.Valid() && store.origin == old(store.origin) && store.services == old(store.services)
    ensures Grew(old(store.log), store.log, {KCreate, KDesired}) && store.nodes == old(store.nodes)
    ensures Lists(ws, old(store.workloads), s.id) && ReplicaMove(s, ws, old(store.workloads), store.workloads)
    ensures SteersOnly(store.origin, store.log, |old(store.log)|, s.id)
    ensures OnlyReplicas(s, old(store.workloads), store.workloads)
  {
    hide Run, LawfulRun, Sound, In, Filter, Members, SteersOnly;
    NothingSteered(store.origin, store.log, s.id);
    store.TablesKeyed();
    var listed := store.ListWorkloadsByService(s.id);
    ws := listed;
    ListingCounts(listed, store.workloads, s.id, ReplicaActive(s.version));
    ListingCounts(listed, store.workloads, s.id, OldActive(s.version));
    ListingCounts(listed, store.workloads, s.id, RunningAt(s.version));
    if !s.status.Active? { return; }
    if s.deployment.DeploymentFailed? { return; }
    var activeReplicas := CountGroup(listed, ReplicaActive(s.version));
    var old_ := CountGroup(listed, OldActive(s.version));
    if old_ > 0 { return; }
    if activeReplicas < s.desiredReplicas {
      var _ := ScaleUp(store, s, s.desiredReplicas - activeReplicas);
      return;
    }
    if activeReplicas == s.desiredReplicas { return; }
    var candidates := SelectScaleDownCandidates(listed, activeReplicas - s.desiredReplicas);
    var newRunning := CountGroup(listed, RunningAt(s.version));
    if newRunning == 0 && s.desiredReplicas > 0 { return; }
    CandidatesStored(listed, store.workloads, s.id, activeReplicas - s.desiredReplicas);
    MarkStopped(store, candidates, s.id);
  }

  // ---- What the specification promises ----

  /**
    The controller waits for a service that is not active or whose deployment failed, and for as long as a
    workload of an older version is in use and not asked to stop.
   */
  lemma ReplicasWait(s: Service, ws: seq<Workload>, before: Rows, after: Rows, id: WorkloadId)
    requires ReplicaMove(s, ws, before, after)
    requires s.status != Active || s.deployment == DeploymentFailed ||
      (id in before && before[id].service == s.id && before[id].version < s.version &&
       before[id].actual in {Pending, Scheduled, Running} && before[id].desired != Stopped)
    ensures after == before
  {
    if s.status == Active && s.deployment != DeploymentFailed {
      assert id in Members(before, s.id, OldActive(s.version));
    }
  }

  // ---- What new replicas are charged ----

  ghost function AllCharged(nodes: NodeRows, d: Dim): nat
    decreases |nodes|
  {
    if nodes == map[] then 0
    else
      var n :| n in nodes;
      nodes[n].Allocated(d) + AllCharged(nodes - {n}, d)
  }

  lemma {:induction false} AllChargedWithout(nodes: NodeRows, n: NodeId, d: Dim)
    requires n in nodes
    ensures AllCharged(nodes, d) == nodes[n].Allocated(d) + AllCharged(nodes - {n}, d)
    decreases |nodes|
  {
    var m := FirstCharged(nodes, d);
    hide AllCharged;
    if m != n {
      AllChargedWithout(nodes - {m}, n, d);
      AllChargedWithout(nodes - {n}, m, d);
      assert nodes - {m} - {n} == nodes - {n} - {m};
    }
  }

  lemma FirstCharged(nodes: NodeRows, d: Dim) returns (n: NodeId)
    requires nodes != map[]
    ensures n in nodes && AllCharged(nodes, d) == nodes[n].Allocated(d) + AllCharged(nodes - {n}, d)
  {
    n :| n in nodes && AllCharged(nodes, d) == nodes[n].Allocated(d) + AllCharged(nodes - {n}, d);
  }

  /** The events place rows that are new replicas of the service, each of them successfully. */
  ghost predicate PlacesReplicas(s: Service, before: Rows, t: Cluster, es: seq<Event>) {
    forall k :: 0 <= k < |es| ==>
      && es[k].Reserve? && es[k].id !in before && Commits(Run(t, es[..k]), es[k])
  }

  lemma {:induction false} ChargedUpTo(s: Service, before: Rows, t: Cluster, es: seq<Event>, m: nat)
    requires OnlyReplicas(s, before, t.workloads) && LawfulRun(t, es) && PlacesReplicas(s, before, t, es) && m <= |es|
    ensures AllCharged(Run(t, es[..m]).nodes, Cpu) == AllCharged(t.nodes, Cpu) + Times(m, s.cpu)
    ensures AllCharged(Run(t, es[..m]).nodes, Memory) == AllCharged(t.nodes, Memory) + Times(m, s.memory)
    ensures RequestsKept(t.workloads, Run(t, es[..m]).workloads)
    decreases m
  {
    hide AllCharged, OnlyReplicas, Run, LawfulRun, Step, Lawful, Commits;
    if m > 0 {
      ChargedUpTo(s, before, t, es, m - 1);
      PrefixStep(t, es, m - 1);
      LawfulPrefix(t, es, m);
      var now, e := Run(t, es[..m - 1]), es[m - 1];
      assert e.Reserve? && e.id !in before && Commits(now, e);
      ReserveCharges(now, e);
      IsNewReplica(s, before, t.workloads, e.id);
    } else {
      NothingRun(t, es);
    }
  }

  lemma NothingRun(t: Cluster, es: seq<Event>)
    ensures Run(t, es[..0]) == t
  {
  }

  function Times(k: nat, x: nat): nat {
    if k == 0 then 0 else Times(k - 1, x) + x
  }

  lemma {:induction false} TimesIsProduct(k: nat, x: nat)
    ensures Times(k, x) == k * x
  {
    if k > 0 {
      TimesIsProduct(k - 1, x);
      assert k * x == (k - 1) * x + x;
    }
  }

  /** Placing `k` new replicas charges the nodes `k` times the CPU and the memory of the service, in all. */
  lemma ReplicasAreCharged(s: Service, before: Rows, t: Cluster, es: seq<Event>)
    requires OnlyReplicas(s, before, t.workloads) && LawfulRun(t, es) && PlacesReplicas(s, before, t, es)
    ensures AllCharged(Run(t, es).nodes, Cpu) == AllCharged(t.nodes, Cpu) + |es| * s.cpu
    ensures AllCharged(Run(t, es).nodes, Memory) == AllCharged(t.nodes, Memory) + |es| * s.memory
  {
    hide AllCharged, Run, LawfulRun;
    ChargedUpTo(s, before, t, es, |es|);
    assert es[..|es|] == es;
    TimesIsProduct(|es|, s.cpu);
    TimesIsProduct(|es|, s.memory);
  }

  /** The same rows, asking for the same. */
  ghost predicate RequestsKept(a: Rows, b: Rows) {
    a.Keys == b.Keys && forall id :: id in a ==> b[id].cpu == a[id].cpu && b[id].memory == a[id].memory
  }

  lemma IsNewReplica(s: Service, before: Rows, after: Rows, id: WorkloadId)
    requires OnlyReplicas(s, before, after) && id in after && id !in before
    ensures after[id].cpu == s.cpu && after[id].memory == s.memory
  {
  }

  lemma ReserveCharges(t: Cluster, e: Event)
    requires e.Reserve? && Commits(t, e) && Lawful(t, e)
    ensures e.id in t.workloads
    ensures AllCharged(Step(t, e).nodes, Cpu) == AllCharged(t.nodes, Cpu) + t.workloads[e.id].cpu
    ensures AllCharged(Step(t, e).nodes, Memory) == AllCharged(t.nodes, Memory) + t.workloads[e.id].memory
    ensures RequestsKept(t.workloads, Step(t, e).workloads)
  {
    hide AllCharged;
    var after, n := Step(t, e).nodes, e.node;
    assert after - {n} == t.nodes - {n};
    forall d ensures AllCharged(after, d) - AllCharged(t.nodes, d) == after[n].Allocated(d) - t.nodes[n].Allocated(d) {
      AllChargedWithout(after, n, d);
      AllChargedWithout(t.nodes, n, d);
    }
    assert after[n].Allocated(Cpu) == t.nodes[n].Allocated(Cpu) + e.cpu;
    assert after[n].Allocated(Memory) == t.nodes[n].Allocated(Memory) + e.memory;
  }

  lemma {:induction false} CandidatesListed(ws: seq<Workload>, n: nat)
    ensures forall w :: w in ScaleDownCandidates(ws, n) ==> w in ws && IsActive(w)
    ensures Distinct(ws) ==> Distinct(ScaleDownCandidates(ws, n))
    ensures |ScaleDownCandidates(ws, n)| == Min(n, |Filter(ws, AnyActive)|)
  {
    if |ws| > 0 && n > 0 {
      var init, last := ws[..|ws| - 1], ws[|ws| - 1];
      CandidatesListed(init, if IsActive(last) then n - 1 else n);
      if Distinct(ws) {
        forall w | w in init ensures w.id != last.id {
          var i :| 0 <= i < |init| && init[i] == w;
        }
      }
    }
  }

  /** Row `i` of the listing is a candidate exactly if it is active and at most `n` active rows start there. */
  lemma {:induction false} CandidatesAreTheLast(ws: seq<Workload>, n: nat, i: nat)
    requires Distinct(ws) && i < |ws|
    ensures ws[i] in ScaleDownCandidates(ws, n) <==> IsActive(ws[i]) && |Filter(ws[i..], AnyActive)| <= n
    decreases |ws|
  {
    var init, last := ws[..|ws| - 1], ws[|ws| - 1];
    assert ws[i..][..|ws| - 1 - i] == init[i..];
    if i < |init| {
      if n > 0 {
        CandidatesAreTheLast(init, if IsActive(last) then n - 1 else n, i);
      } else if IsActive(ws[i]) {
        FilterKeepsGroup(ws[i..], AnyActive);
        assert ws[i..][0] in Filter(ws[i..], AnyActive);
      }
    } else if n > 0 {
      CandidatesListed(init, if IsActive(last) then n - 1 else n);
      assert forall k :: 0 <= k < |init| ==> init[k].id != last.id;
    }
  }

  /** No active row is of a version above the service's. */
  ghost predicate NoneNewer(rows: Rows, s: Service) {
    forall id :: id in rows && rows[id].service == s.id && IsActive(rows[id]) ==> rows[id].version <= s.version
  }

  lemma CountsAgree(rows: Rows, s: Service)
    requires NoneNewer(rows, s) && s.version >= 1 && Census(rows, s.id, OldActive(s.version)) == 0
    ensures Census(rows, s.id, ReplicaActive(s.version)) == Census(rows, s.id, AnyActive)
  {
    assert Members(rows, s.id, OldActive(s.version)) == {};
    forall id | id in Members(rows, s.id, AnyActive) ensures id in Members(rows, s.id, ReplicaActive(s.version)) {
      assert id !in Members(rows, s.id, OldActive(s.version));
    }
    assert Members(rows, s.id, ReplicaActive(s.version)) == Members(rows, s.id, AnyActive);
  }

  lemma AddedMembers(s: Service, before: Rows, after: Rows, g: Group, joins: bool)
    requires before.Keys <= after.Keys
    requires forall id :: id in before ==> after[id] == before[id]
    requires forall id :: id in after && id !in before ==> after[id].service == s.id && In(g, after[id]) == joins
    ensures Members(after, s.id, g) == Members(before, s.id, g) + if joins then after.Keys - before.Keys else {}
  {
    hide In;
  }

  lemma ScaleUpCounts(s: Service, before: Rows, after: Rows, missing: nat)
    requires ScaledUp(s, before, after, missing)
    ensures Census(after, s.id, AnyActive) == Census(before, s.id, AnyActive) + missing
    ensures Census(after, s.id, OldActive(s.version)) == Census(before, s.id, OldActive(s.version))
  {
    AddedMembers(s, before, after, AnyActive, true);
    AddedMembers(s, before, after, OldActive(s.version), false);
    AddedSize(before, after, missing);
    assert Members(before, s.id, AnyActive) <= before.Keys;
    hide In, ScaledUp, Members;
    DisjointSizes(Members(before, s.id, AnyActive), after.Keys - before.Keys);
  }

  lemma DisjointSizes(a: set<WorkloadId>, b: set<WorkloadId>)
    requires a !! b
    ensures |a + b| == |a| + |b|
  {
  }

  lemma AddedSize(before: Rows, after: Rows, missing: nat)
    requires before.Keys <= after.Keys && |after| == |before| + missing
    ensures |after.Keys - before.Keys| == missing
  {
    assert after.Keys == before.Keys + (after.Keys - before.Keys);
  }

  lemma ScaleUpKeepsShape(s: Service, before: Rows, after: Rows, missing: nat)
    requires ScaledUp(s, before, after, missing)
    ensures NoneNewer(before, s) ==> NoneNewer(after, s)
    ensures Keyed(before) ==> Keyed(after)
  {
  }

  lemma StopMarkedCounts(s: Service, rows: Rows, ids: set<WorkloadId>)
    requires ids <= Members(rows, s.id, AnyActive)
    ensures Census(StopMarked(rows, ids), s.id, AnyActive) == Census(rows, s.id, AnyActive) - |ids|
    ensures Members(StopMarked(rows, ids), s.id, OldActive(s.version)) <= Members(rows, s.id, OldActive(s.version))
    ensures NoneNewer(rows, s) ==> NoneNewer(StopMarked(rows, ids), s)
    ensures Keyed(rows) ==> Keyed(StopMarked(rows, ids))
  {
    StopMarkedMembers(s, rows, ids);
    StopMarkedKeepsShape(s, rows, ids);
    hide Members, StopMarked, NoneNewer, Keyed;
    SizeOfRest(Members(rows, s.id, AnyActive), ids);
  }

  lemma StopMarkedMembers(s: Service, rows: Rows, ids: set<WorkloadId>)
    ensures Members(StopMarked(rows, ids), s.id, AnyActive) == Members(rows, s.id, AnyActive) - ids
    ensures Members(StopMarked(rows, ids), s.id, OldActive(s.version)) <= Members(rows, s.id, OldActive(s.version))
  {
  }

  lemma StopMarkedKeepsShape(s: Service, rows: Rows, ids: set<WorkloadId>)
    ensures NoneNewer(rows, s) ==> NoneNewer(StopMarked(rows, ids), s)
    ensures Keyed(rows) ==> Keyed(StopMarked(rows, ids))
  {
  }

  lemma SizeOfRest(x: set<WorkloadId>, gone: set<WorkloadId>)
    requires gone <= x
    ensures |x - gone| == |x| - |gone|
  {
  }

  lemma CandidatesStored(ws: seq<Workload>, rows: Rows, s: ServiceId, n: nat)
    requires Lists(ws, rows, s)
    ensures Distinct(ScaleDownCandidates(ws, n))
    ensures forall i :: 0 <= i < |ScaleDownCandidates(ws, n)| ==>
      var w := ScaleDownCandidates(ws, n)[i]; w.id in rows && rows[w.id] == w && w.service == s && IsActive(w)
  {
    CandidatesListed(ws, n);
    forall i | 0 <= i < |ScaleDownCandidates(ws, n)|
      ensures var w := ScaleDownCandidates(ws, n)[i]; w.id in rows && rows[w.id] == w && w.service == s && IsActive(w)
    {
      assert ScaleDownCandidates(ws, n)[i] in ws;
    }
  }

  /** A scale-down by `n` marks `n` rows, and they are active rows of the service. */
  lemma CandidateIds(s: Service, ws: seq<Workload>, rows: Rows, n: nat)
    requires Keyed(rows) && Lists(ws, rows, s.id) && n <= Census(rows, s.id, AnyActive)
    ensures IdsOf(ScaleDownCandidates(ws, n)) <= Members(rows, s.id, AnyActive)
    ensures |IdsOf(ScaleDownCandidates(ws, n))| == n
  {
    var c := ScaleDownCandidates(ws, n);
    CandidatesListed(ws, n);
    CandidatesStored(ws, rows, s.id, n);
    ListingCounts(ws, rows, s.id, AnyActive);
    IdsOfSize(c);
  }

  lemma ScaleDownCounts(s: Service, ws: seq<Workload>, rows: Rows, n: nat)
    requires Keyed(rows) && Lists(ws, rows, s.id) && n <= Census(rows, s.id, AnyActive)
    requires NoneNewer(rows, s) && Census(rows, s.id, OldActive(s.version)) == 0
    ensures var after := StopMarked(rows, IdsOf(ScaleDownCandidates(ws, n)));
      && Census(after, s.id, AnyActive) == Census(rows, s.id, AnyActive) - n
      && Census(after, s.id, OldActive(s.version)) == 0 && NoneNewer(after, s) && Keyed(after)
  {
    hide In, Lists;
    CandidateIds(s, ws, rows, n);
    StopMarkedCounts(s, rows, IdsOf(ScaleDownCandidates(ws, n)));
    assert Members(rows, s.id, OldActive(s.version)) == {};
  }

  /** The result of one call when no older version is active. */
  lemma ReplicaMoveCounts(s: Service, ws: seq<Workload>, before: Rows, after: Rows)
    requires Keyed(before) && Lists(ws, before, s.id) && ReplicaMove(s, ws, before, after)
    requires s.status.Active? && !s.deployment.DeploymentFailed? && s.version >= 1
    requires NoneNewer(before, s) && Census(before, s.id, OldActive(s.version)) == 0
    ensures Keyed(after) && NoneNewer(after, s) && Census(after, s.id, OldActive(s.version)) == 0
    ensures var active := Census(before, s.id, AnyActive);
      if active > s.desiredReplicas && GateClosed(s, before) then after == before
      else Census(after, s.id, AnyActive) == s.desiredReplicas
  {
    CountsAgree(before, s);
    var active := Census(before, s.id, AnyActive);
    if active < s.desiredReplicas {
      ScaleUpCounts(s, before, after, s.desiredReplicas - active);
      ScaleUpKeepsShape(s, before, after, s.desiredReplicas - active);
    } else if active > s.desiredReplicas && !GateClosed(s, before) {
      ScaleDownCounts(s, ws, before, active - s.desiredReplicas);
    }
  }

  /**
    When no older version is active, one call leaves exactly the desired number of active workloads if and
    only if there were not too many of them, or some current workload runs, or none is desired.
   */
  lemma ReplicasHitTarget(s: Service, ws: seq<Workload>, before: Rows, after: Rows)
    requires Keyed(before) && Lists(ws, before, s.id) && ReplicaMove(s, ws, before, after)
    requires s.status.Active? && !s.deployment.DeploymentFailed? && s.version >= 1
    requires NoneNewer(before, s) && Census(before, s.id, OldActive(s.version)) == 0
    ensures Census(after, s.id, AnyActive) == s.desiredReplicas <==>
      Census(before, s.id, AnyActive) <= s.desiredReplicas ||
      Census(before, s.id, RunningAt(s.version)) > 0 || s.desiredReplicas == 0
  {
    hide In, Members, NoneNewer, Keyed, ScaledUp, StopMarked, Lists;
    ReplicaMoveCounts(s, ws, before, after);
  }

  /** An immediate second call changes nothing, whatever order its listing comes in. */
  lemma SecondCallChangesNothing(s: Service, ws: seq<Workload>, xs: seq<Workload>, a: Rows, b: Rows, c: Rows)
    requires Keyed(a) && NoneNewer(a, s) && s.version >= 1
    requires Lists(ws, a, s.id) && ReplicaMove(s, ws, a, b)
    requires Lists(xs, b, s.id) && ReplicaMove(s, xs, b, c)
    ensures c == b
  {
    if s.status.Active? && !s.deployment.DeploymentFailed? && Census(a, s.id, OldActive(s.version)) == 0 {
      ReplicaMoveCounts(s, ws, a, b);
      CountsAgree(b, s);
    }
  }
}
