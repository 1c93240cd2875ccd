/**
  The deployment controller: at most one workload is created or asked to stop per call, so that a service
  moves from older versions to the current one under its surge and availability limits.
 */
module Rollout {
  import opened Model
  import opened Tables
  import opened Ledger
  import opened Store
  import opened Replicas

  // ---- Specification ----

  datatype Action = Idle | Surge | Retire(id: WorkloadId)

  function NextAction(s: Service, ws: seq<Workload>): Action {
    var older := Filter(ws, OldActive(s.version));
    if s.deployment.DeploymentFailed? || |older| == 0 || |Filter(ws, FailedAt(s.version))| > 0 then Idle
    else if |older| + |Filter(ws, NewActive(s.version))| < s.desiredReplicas + s.maxSurge then Surge
    else if older[0].actual.Running? && |Filter(ws, RunningActive)| - 1 < s.desiredReplicas - s.maxUnavailable then Idle
    else Retire(older[0].id)
  }

  ghost predicate ActedAs(s: Service, a: Action, before: Rows, after: Rows) {
    match a
    case Idle => after == before
    case Surge => exists id :: id !in before && after == before[id := PendingRow(s, id)]
    case Retire(id) => id in before && after == before[id := before[id].(desired := Stopped)]
  }

  /** One call of the controller, on some listing of the rows. */
  ghost predicate DeployMove(s: Service, a: Action, before: Rows, after: Rows) {
    exists ws :: Lists(ws, before, s.id) && a == NextAction(s, ws) && ActedAs(s, a, before, after)
  }

  // ---- The controller ----

  method Collect(ws: seq<Workload>, g: Group) returns (result: seq<Workload>)
    ensures result == Filter(ws, g)
  {
    result := [];
    for k := 0 to |ws|
      invariant result == Filter(ws[..k], g)
    {
      assert ws[..k + 1][..k] == ws[..k];
      if !In(g, ws[k]) { continue; }
      result := result + [ws[k]];
    }
    assert ws[..|ws|] == ws;
  }

  lemma OldestIsActive(ws: seq<Workload>, v: int)
    requires |Filter(ws, OldActive(v))| > 0
    ensures Filter(ws, OldActive(v))[0] in ws && IsActive(Filter(ws, OldActive(v))[0])
  {
    FilterKeepsGroup(ws, OldActive(v));
    assert Filter(ws, OldActive(v))[0] in Filter(ws, OldActive(v));
  }

  method ReconcileDeployment(store: Postgres, s: Service) returns (ok: bool, ghost action: Action)
    requires store.Valid()
    modifies store
    ensures store.Valid() && store.origin == old(store.origin) && store.services == old(store.services)
    ensures Grew(old(store.log), store.log, {KCreate, KDesired}) && store.nodes == old(store.nodes)
    ensures ok && DeployMove(s, action, old(store.workloads), store.workloads)
    ensures SteersOnly(store.origin, store.log, |old(store.log)|, s.id)
    ensures OnlyReplicas(s, old(store.workloads), store.workloads)
  {
    hide Run, LawfulRun, Sound, Filter, In, SteersOnly;
    ghost var log := store.log;
    NothingSteered(store.origin, log, s.id);
    store.TablesKeyed();
    ghost var rows := store.workloads;
    var ws := store.ListWorkloadsByService(s.id);
    action, ok := NextAction(s, ws), true;
    if s.deployment.DeploymentFailed? { return; }
    var older := Collect(ws, OldActive(s.version));
    if |older| == 0 { return; }
    var failed := Collect(ws, FailedAt(s.version));
    if |failed| > 0 { return; }
    var newer := Collect(ws, NewActive(s.version));
    var totalActive := |older| + |newer|;
    var maxTotal := s.desiredReplicas + s.maxSurge;
    if totalActive < maxTotal {
      var id := NewWorkloadId(store.workloads);
      ok := store.CreatePendingWorkload(PendingRow(s, id));
      assert store.workloads == rows[id := PendingRow(s, id)];
      SteersOnlySnoc(store.origin, log, Create(PendingRow(s, id)), |log|, s.id);
      return;
    }
    OldestIsActive(ws, s.version);
    var oldest := older[0];
    assert oldest in ws && IsActive(oldest);
    var running := CountGroup(ws, RunningActive);
    if oldest.actual.Running? && running - 1 < s.desiredReplicas - s.maxUnavailable { return; }
    SteersOnlySnoc(store.origin, log, SetDesired(oldest.id, Stopped), |log|, s.id);
    store.UpdateWorkloadDesiredState(oldest.id, Stopped);
  }

  // ---- Counts before and after one action ----

  ghost function OldCount(rows: Rows, s: Service): nat {
    Census(rows, s.id, OldActive(s.version))
  }

  ghost function ActiveCount(rows: Rows, s: Service): nat {
    Census(rows, s.id, AnyActive)
  }

  /** Every active workload of the service runs. */
  ghost predicate Settled(rows: Rows, s: Service) {
    Members(rows, s.id, AnyActive) <= Members(rows, s.id, RunningActive)
  }

  lemma ActiveSplits(rows: Rows, s: Service)
    requires NoneNewer(rows, s)
    ensures ActiveCount(rows, s) == OldCount(rows, s) + Census(rows, s.id, NewActive(s.version))
  {
    assert Members(rows, s.id, AnyActive)
        == Members(rows, s.id, OldActive(s.version)) + Members(rows, s.id, NewActive(s.version));
    DisjointSizes(Members(rows, s.id, OldActive(s.version)), Members(rows, s.id, NewActive(s.version)));
  }

  lemma RunningIsActive(rows: Rows, s: Service)
    ensures Members(rows, s.id, RunningActive) <= Members(rows, s.id, AnyActive)
    ensures Settled(rows, s) ==> Census(rows, s.id, RunningActive) == ActiveCount(rows, s)
  {
    if Settled(rows, s) {
      assert Members(rows, s.id, RunningActive) == Members(rows, s.id, AnyActive);
    }
  }

  ghost predicate Blocked(rows: Rows, s: Service) {
    s.deployment.DeploymentFailed? || OldCount(rows, s) == 0 || Census(rows, s.id, FailedAt(s.version)) > 0
  }

  ghost predicate Sparable(rows: Rows, s: Service) {
    Census(rows, s.id, RunningActive) - 1 >= s.desiredReplicas - s.maxUnavailable
  }

  /**
    The controller's decision in terms of the table. The listing counts by its first older workload only: if
    that one runs it is kept unless a running workload can be spared, otherwise it is the one to go.
   */
  lemma DecisionByCounts(rows: Rows, s: Service, ws: seq<Workload>)
    requires Keyed(rows) && Lists(ws, rows, s.id) && NoneNewer(rows, s)
    ensures NextAction(s, ws).Surge? <==>
      !Blocked(rows, s) && ActiveCount(rows, s) < s.desiredReplicas + s.maxSurge
    ensures NextAction(s, ws).Retire? ==>
      !Blocked(rows, s) && ActiveCount(rows, s) >= s.desiredReplicas + s.maxSurge
    ensures NextAction(s, ws).Retire? ==>
      var id := NextAction(s, ws).id;
      id in Members(rows, s.id, OldActive(s.version)) && (rows[id].actual.Running? ==> Sparable(rows, s))
    ensures NextAction(s, ws).Idle? && !Blocked(rows, s) ==> !Sparable(rows, s)
    ensures OldCount(rows, s) > 0 ==> |Filter(ws, OldActive(s.version))| > 0
    ensures OldCount(rows, s) > 0 ==>
      var first := Filter(ws, OldActive(s.version))[0];
      && (NextAction(s, ws).Idle? <==>
           || Blocked(rows, s)
           || (ActiveCount(rows, s) >= s.desiredReplicas + s.maxSurge && first.actual.Running? && !Sparable(rows, s)))
      && (NextAction(s, ws).Retire? ==> NextAction(s, ws).id == first.id)
  {
    var older := Filter(ws, OldActive(s.version));
    ListingCounts(ws, rows, s.id, OldActive(s.version));
    ListingCounts(ws, rows, s.id, NewActive(s.version));
    ListingCounts(ws, rows, s.id, FailedAt(s.version));
    ListingCounts(ws, rows, s.id, RunningActive);
    ActiveSplits(rows, s);
    FilterKeepsGroup(ws, OldActive(s.version));
    if |older| > 0 {
      assert older[0] in ws && older[0].id in IdsOf(older);
    }
  }

  /**
    Deadlock freedom, exactly: with every active workload running and older ones left, the controller does
    nothing if and only if the active workloads fill the surge limit and none of them may be spared.
   */
  lemma StuckExactly(rows: Rows, s: Service, ws: seq<Workload>)
    requires Keyed(rows) && Lists(ws, rows, s.id) && NoneNewer(rows, s)
    requires !s.deployment.DeploymentFailed? && Census(rows, s.id, FailedAt(s.version)) == 0
    requires OldCount(rows, s) > 0 && Settled(rows, s)
    ensures NextAction(s, ws).Idle? <==>
      s.desiredReplicas + s.maxSurge <= ActiveCount(rows, s) <= s.desiredReplicas - s.maxUnavailable
  {
    DecisionByCounts(rows, s, ws);
    RunningIsActive(rows, s);
    if NextAction(s, ws).Retire? {
      var id := NextAction(s, ws).id;
      assert id in Members(rows, s.id, AnyActive);
      assert id in Members(rows, s.id, RunningActive);
    }
  }

  /** The validator's condition: an idle call with older workloads left is waiting for one to start running. */
  lemma NeverStuck(rows: Rows, s: Service, ws: seq<Workload>)
    requires Keyed(rows) && Lists(ws, rows, s.id) && NoneNewer(rows, s)
    requires !s.deployment.DeploymentFailed? && Census(rows, s.id, FailedAt(s.version)) == 0
    requires OldCount(rows, s) > 0 && s.maxSurge + s.maxUnavailable >= 1
    requires NextAction(s, ws).Idle?
    ensures exists id :: id in rows && rows[id].service == s.id && IsActive(rows[id]) && !rows[id].actual.Running?
  {
    if Settled(rows, s) {
      StuckExactly(rows, s, ws);
    }
    var id :| id in Members(rows, s.id, AnyActive) && id !in Members(rows, s.id, RunningActive);
    assert id in rows && !rows[id].actual.Running?;
  }

  /** Without surge and without slack, exactly the desired number of running workloads is stuck for good. */
  lemma StuckForGood(rows: Rows, s: Service, a: Action, after: Rows)
    requires Keyed(rows) && NoneNewer(rows, s)
    requires s.maxSurge == 0 && s.maxUnavailable == 0
    requires ActiveCount(rows, s) == s.desiredReplicas && Settled(rows, s) && OldCount(rows, s) > 0
    requires DeployMove(s, a, rows, after)
    ensures after == rows
  {
    var ws :| Lists(ws, rows, s.id) && a == NextAction(s, ws) && ActedAs(s, a, rows, after);
    if !s.deployment.DeploymentFailed? && Census(rows, s.id, FailedAt(s.version)) == 0 {
      StuckExactly(rows, s, ws);
    } else {
      DecisionByCounts(rows, s, ws);
    }
  }

  // ---- Safety and progress of one action ----

  /** `2 * old + missing surge room`, while older workloads are left. */
  ghost function Potential(rows: Rows, s: Service): nat {
    if OldCount(rows, s) == 0 then 0
    else 2 * OldCount(rows, s) + Max(0, s.desiredReplicas + s.maxSurge - ActiveCount(rows, s))
  }

  lemma RetireCounts(rows: Rows, s: Service, id: WorkloadId)
    requires id in Members(rows, s.id, OldActive(s.version))
    ensures var after := rows[id := rows[id].(desired := Stopped)];
      && OldCount(after, s) == OldCount(rows, s) - 1
      && ActiveCount(after, s) == ActiveCount(rows, s) - 1
      && Census(after, s.id, RunningActive)
           == Census(rows, s.id, RunningActive) - (if rows[id].actual.Running? then 1 else 0)
      && (NoneNewer(rows, s) ==> NoneNewer(after, s))
  {
    var w := rows[id].(desired := Stopped);
    CensusAfterWrite(rows, id, w, s.id, OldActive(s.version));
    CensusAfterWrite(rows, id, w, s.id, AnyActive);
    CensusAfterWrite(rows, id, w, s.id, RunningActive);
  }

  lemma SurgeCounts(rows: Rows, s: Service, id: WorkloadId)
    requires id !in rows
    ensures var after := rows[id := PendingRow(s, id)];
      && OldCount(after, s) == OldCount(rows, s)
      && ActiveCount(after, s) == ActiveCount(rows, s) + 1
      && Census(after, s.id, RunningActive) == Census(rows, s.id, RunningActive)
      && (NoneNewer(rows, s) ==> NoneNewer(after, s))
  {
    var w := PendingRow(s, id);
    CensusAfterWrite(rows, id, w, s.id, OldActive(s.version));
    CensusAfterWrite(rows, id, w, s.id, AnyActive);
    CensusAfterWrite(rows, id, w, s.id, RunningActive);
  }

  /**
    One call never lifts the number of active workloads above `desired + maxSurge` (nor above where it was),
    never takes the running ones below `desired - maxUnavailable` (nor below where they were), and every
    action it takes strictly lowers the potential.
   */
  lemma DeployMoveSafe(s: Service, a: Action, before: Rows, after: Rows)
    requires Keyed(before) && NoneNewer(before, s) && DeployMove(s, a, before, after)
    ensures NoneNewer(after, s)
    ensures ActiveCount(after, s) <= Max(ActiveCount(before, s), s.desiredReplicas + s.maxSurge)
    ensures Census(after, s.id, RunningActive)
         >= Min(Census(before, s.id, RunningActive), s.desiredReplicas - s.maxUnavailable)
    ensures Potential(after, s) <= Potential(before, s) - (if a.Idle? then 0 else 1)
    ensures OldCount(after, s) <= OldCount(before, s)
  {
    var ws :| Lists(ws, before, s.id) && a == NextAction(s, ws) && ActedAs(s, a, before, after);
    DecisionByCounts(before, s, ws);
    if a.Surge? {
      var id :| id !in before && after == before[id := PendingRow(s, id)];
      SurgeCounts(before, s, id);
    } else if a.Retire? {
      RetireCounts(before, s, a.id);
    }
  }
}
