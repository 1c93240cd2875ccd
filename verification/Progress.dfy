/**
  Rollouts in the running system: consecutive reconcile cycles, read off the log, are a run of `RolloutRuns`.
 */
module Progress {
  import opened Model
  import opened Tables
  import opened Ledger
  import opened Services
  import opened Store
  import opened Placement
  import opened Execution
  import opened Replicas
  import opened Rollout
  import opened RolloutRuns
  import opened Drift
  import opened Nodes
  import opened Cycle

  /** The controllers do the same for two rows that differ in a deployment status other than FAILED only. */
  lemma SameForBoth(s: Service, d: DeploymentStatus, t: Cluster, es: seq<Event>, from: nat, cut: Cut)
    requires !s.deployment.DeploymentFailed? && !d.DeploymentFailed?
    requires Watched(WithDeployment(s, d), t, es, from, cut)
    ensures Watched(s, t, es, from, cut)
  {
    hide Run, SteersFor, Lists;
    var s' := WithDeployment(s, d);
    var a, b, c := Run(t, es[..cut.start]), Run(t, es[..cut.deployed]), Run(t, es[..cut.scaled]);
    var action :| Moves(s', Deploy(action), a, b);
    var ws :| Lists(ws, a.workloads, s.id) && action == NextAction(s', ws) &&
      ActedAs(s', action, a.workloads, b.workloads);
    SameAction(s, d, ws, action, a.workloads, b.workloads);
    assert Moves(s, Deploy(action), a, b);
    var xs :| Lists(xs, b.workloads, s.id) && ReplicaMove(s', xs, b.workloads, c.workloads);
    SameReplicas(s, d, xs, b.workloads, c.workloads);
  }

  lemma SameAction(s: Service, d: DeploymentStatus, ws: seq<Workload>, action: Action, a: Rows, b: Rows)
    requires !s.deployment.DeploymentFailed? && !d.DeploymentFailed?
    requires action == NextAction(WithDeployment(s, d), ws) && ActedAs(WithDeployment(s, d), action, a, b)
    ensures action == NextAction(s, ws) && ActedAs(s, action, a, b)
  {
    assert forall id :: PendingRow(WithDeployment(s, d), id) == PendingRow(s, id);
    if action.Surge? {
      var id :| id !in a && b == a[id := PendingRow(WithDeployment(s, d), id)];
      assert b == a[id := PendingRow(s, id)];
    }
  }

  lemma SameReplicas(s: Service, d: DeploymentStatus, ws: seq<Workload>, a: Rows, b: Rows)
    requires !s.deployment.DeploymentFailed? && !d.DeploymentFailed?
    requires ReplicaMove(WithDeployment(s, d), ws, a, b)
    ensures ReplicaMove(s, ws, a, b)
  {
    assert forall id :: PendingRow(WithDeployment(s, d), id) == PendingRow(s, id);
    hide PendingRow, Census, StopMarked;
  }

  lemma UnhinderedPrefix(s: Service, t: Cluster, es: seq<Event>, more: seq<Event>, from: nat, later: nat)
    requires es <= more && from <= later && Unhindered(s, t, more, from)
    ensures Unhindered(s, t, es, from) && Unhindered(s, t, more, later)
  {
    hide Run, Neutral;
    forall k | from <= k < |es| && !es[k].Create? && !es[k].SetDesired? ensures Neutral(s, Run(t, es[..k]), es[k]) {
      assert es[..k] == more[..k] && es[k] == more[k];
    }
  }

  /**
    The run so far: from position `from` to the end of the log, with one deployment call per round, of which at
    least `settled` found every active workload running.
   */
  ghost predicate RollsTo(s: Service, t: Cluster, es: seq<Event>, from: nat, rounds: nat, settled: int,
                          ts: seq<Cluster>, ms: seq<Move>)
    requires from <= |es|
  {
    Rollouts(s, ts, ms) && ts[0] == Run(t, es[..from]) && ts[|ms|] == Run(t, es) && Calls(ms) == rounds &&
    SettledCalls(s, ts, ms) >= settled
  }

  /** One more cycle, and the node writes before it, continue the run. */
  lemma RollOn(s: Service, t: Cluster, l0: seq<Event>, l1: seq<Event>, l2: seq<Event>, from: nat, cut: Cut,
               rounds: nat, settled: int, ts: seq<Cluster>, ms: seq<Move>)
    returns (ts': seq<Cluster>, ms': seq<Move>)
    requires from <= |l0| && l0 <= l1 <= l2 && LawfulRun(t, l2)
    requires Grew(l0, l1, {KEnvironment}) && Watched(s, t, l2, |l1|, cut)
    requires Unhindered(s, t, l2, from) && RollsTo(s, t, l0, from, rounds, settled, ts, ms)
    ensures RollsTo(s, t, l2, from, rounds + 1, settled, ts', ms')
    ensures cut.start <= |l2| && (Settled(Run(t, l2[..cut.start]).workloads, s) ==>
      RollsTo(s, t, l2, from, rounds + 1, Max(settled, 0) + 1, ts', ms'))
  {
    hide Run, LawfulRun, Leaves, Watched, Unhindered, Rollouts, Calls, SettledCalls, Settled, RollsTo, Grew;
    CutInLog(s, t, l2, |l1|, cut);
    var us, ns := Between(s, t, l0, l1, l2, from);
    assert l1[..from] == l0[..from];
    RollsJoin(s, t, l0, l1, from, rounds, settled, settled, ts, ms, us, ns);
    UnhinderedPrefix(s, t, l2, l2, from, |l1|);
    ts', ms' := RollCycle(s, t, l1, l2, from, cut, rounds, settled, ts + us[1..], ms + ns);
  }

  /** A cycle continues the run. */
  lemma RollCycle(s: Service, t: Cluster, l1: seq<Event>, l2: seq<Event>, from: nat, cut: Cut, rounds: nat,
                  settled: int, ts: seq<Cluster>, ms: seq<Move>)
    returns (ts': seq<Cluster>, ms': seq<Move>)
    requires from <= |l1| && l1 <= l2 && LawfulRun(t, l2) && Watched(s, t, l2, |l1|, cut)
    requires Unhindered(s, t, l2, |l1|) && RollsTo(s, t, l1, from, rounds, settled, ts, ms)
    ensures RollsTo(s, t, l2, from, rounds + 1, settled, ts', ms')
    ensures cut.start <= |l2| && (Settled(Run(t, l2[..cut.start]).workloads, s) ==>
      RollsTo(s, t, l2, from, rounds + 1, Max(settled, 0) + 1, ts', ms'))
  {
    hide Run, LawfulRun, Watched, Unhindered, Rollouts, Calls, SettledCalls, Settled, RollsTo;
    CutInLog(s, t, l2, |l1|, cut);
    assert l2[..|l1|] == l1 && l2[..from] == l1[..from];
    var us, ns := CycleMoves(s, t, l2, |l1|, cut);
    RollsJoin(s, t, l1, l2, from, rounds, settled, Max(settled, 0) + 1, ts, ms, us, ns);
    ts', ms' := ts + us[1..], ms + ns;
  }

  /** What happens between two cycles is a stretch of a run without a call. */
  lemma Between(s: Service, t: Cluster, l0: seq<Event>, l1: seq<Event>, l2: seq<Event>, from: nat)
    returns (us: seq<Cluster>, ns: seq<Move>)
    requires from <= |l0| && l0 <= l1 <= l2 && LawfulRun(t, l2)
    requires Grew(l0, l1, {KEnvironment}) && Unhindered(s, t, l2, from)
    ensures Rollouts(s, us, ns) && us[0] == Run(t, l0) && us[|ns|] == Run(t, l1) && Calls(ns) == 0
  {
    hide Run, LawfulRun, Leaves, Unhindered, Calls;
    assert l2[..|l0|] == l0 && l2[..|l1|] == l1;
    KindsSteerNobody(t, l0, l1, {KEnvironment}, s.id);
    LeavesLater(t, l1, l2, |l0|, |l1|, s.id);
    UnhinderedPrefix(s, t, l2, l2, from, |l0|);
    us, ns := BackgroundMoves(s, t, l2, |l0|, |l1|);
  }

  /** A run is continued by the moves of another stretch of the log. */
  lemma RollsJoin(s: Service, t: Cluster, before: seq<Event>, after: seq<Event>, from: nat, rounds: nat,
                  settled: int, goal: int, ts: seq<Cluster>, ms: seq<Move>, us: seq<Cluster>, ns: seq<Move>)
    requires from <= |before| && from <= |after| && Run(t, before[..from]) == Run(t, after[..from])
    requires RollsTo(s, t, before, from, rounds, settled, ts, ms)
    requires Rollouts(s, us, ns) && us[0] == Run(t, before) && us[|ns|] == Run(t, after)
    ensures |us| > 0
    ensures RollsTo(s, t, after, from, rounds + Calls(ns), settled, ts + us[1..], ms + ns)
    ensures goal <= Max(settled, 0) + SettledCalls(s, us, ns) ==>
      RollsTo(s, t, after, from, rounds + Calls(ns), goal, ts + us[1..], ms + ns)
  {
    hide Run, Calls, SettledCalls, Rollouts;
    Lengths(s, ts, ms);
    Lengths(s, us, ns);
    Joined(s, ts, ms, us, ns);
  }

  lemma Lengths(s: Service, ts: seq<Cluster>, ms: seq<Move>)
    requires Rollouts(s, ts, ms)
    ensures |ts| == |ms| + 1
  {
  }

  /** What a rollout needs of its service, and of the table at its start. */
  ghost predicate Launched(s: Service, rows: Rows) {
    && InOrder(s, rows) && s.version >= 1 && Census(rows, s.id, FailedAt(s.version)) == 0
    && s.maxSurge >= 0 && s.maxUnavailable >= 0 && s.maxSurge + s.maxUnavailable >= 1
  }

  /** Where in the log a cycle begins and ends. */
  datatype Lap = Lap(from: nat, to: nat)

  /**
    A cycle that goes well for the service: the node agents do as asked and report what is recorded, and there
    is room on ready nodes that do no more than send heartbeats.
   */
  ghost predicate SmoothLap(s: ServiceId, t: Cluster, es: seq<Event>, lap: Lap, client: NodeClient) {
    && client.reliable
    && lap.from <= lap.to <= |es|
    && Healthy(s, Run(t, es[..lap.from]), client.listings)
    && SmoothSince(s, t, es[..lap.to], lap.from)
  }

  ghost predicate AllSmooth(s: ServiceId, t: Cluster, es: seq<Event>, laps: seq<Lap>, clients: seq<NodeClient>) {
    |laps| <= |clients| && forall i :: 0 <= i < |laps| ==> SmoothLap(s, t, es, laps[i], clients[i])
  }

  ghost predicate Within(laps: seq<Lap>, n: nat) {
    forall i :: 0 <= i < |laps| ==> laps[i].from <= laps[i].to <= n
  }

  lemma SmoothBefore(s: ServiceId, t: Cluster, before: seq<Event>, after: seq<Event>, laps: seq<Lap>, lap: Lap,
                     clients: seq<NodeClient>)
    requires before <= after && Within(laps, |before|) && AllSmooth(s, t, after, laps + [lap], clients)
    ensures AllSmooth(s, t, before, laps, clients) && SmoothLap(s, t, after, lap, clients[|laps|])
  {
    hide Run, Healthy, SmoothSince;
    var all := laps + [lap];
    assert SmoothLap(s, t, after, all[|laps|], clients[|laps|]);
    forall i | 0 <= i < |laps| ensures SmoothLap(s, t, before, laps[i], clients[i]) {
      assert SmoothLap(s, t, after, all[i], clients[i]);
      assert after[..laps[i].from] == before[..laps[i].from] && after[..laps[i].to] == before[..laps[i].to];
    }
  }

  lemma UpIsSettled(s: Service, rows: Rows)
    requires AllUp(rows, s.id)
    ensures Settled(rows, s)
  {
  }

  /** How many calls of so many smooth rounds are sure to find every active workload running: all but the first. */
  function Sure(rounds: nat): nat {
    Max(rounds - 1, 0)
  }

  /**
    Cycle after cycle, until the deployment fails or one likes to stop. If nothing in the log hinders the
    service, the cycles are a run of `RolloutRuns` with one deployment call each. So the surge limit is kept
    throughout, and once as many calls as `2 * old + missing surge room` found every active workload running,
    no older workload is active any more. When every cycle goes well, all calls but the first do find that, so
    that the rollout is over after one cycle more than that number.
   */
  method Roll(store: Postgres, clients: seq<NodeClient>, s: ServiceId, clock: seq<int>, timeout: int)
    returns (rounds: nat, ghost ts: seq<Cluster>, ghost ms: seq<Move>, ghost laps: seq<Lap>)
    requires store.Valid() && s in store.services && Steers(store.services[s]) && |clock| == |clients|
    requires forall o :: o in store.services ==> store.services[o].id == o
    requires forall i, m :: 0 <= i < |clients| && m in clients[i].listings ==> UniqueListing(clients[i].listings[m])
    modifies store, clients
    ensures store.Valid() && store.origin == old(store.origin) && old(store.log) <= store.log
    ensures s in store.services
    ensures store.services[s] == WithDeployment(old(store.services)[s], store.services[s].deployment)
    ensures rounds <= |clients| && (rounds < |clients| ==> store.services[s].deployment.DeploymentFailed?)
    ensures |laps| == rounds && Within(laps, |store.log|)
    ensures var row := old(store.services)[s];
      Unhindered(row, store.origin, store.log, |old(store.log)|) ==>
        RollsTo(row, store.origin, store.log, |old(store.log)|, rounds, 0, ts, ms)
    ensures var row := old(store.services)[s];
      Unhindered(row, store.origin, store.log, |old(store.log)|) && Launched(row, old(store.workloads)) ==>
        && |ts| == |ms| + 1
        && ActiveCount(store.workloads, row)
             <= Max(ActiveCount(old(store.workloads), row), row.desiredReplicas + row.maxSurge)
        && (SettledCalls(row, ts, ms) >= Potential(old(store.workloads), row) ==> OldCount(store.workloads, row) == 0)
        && (AllSmooth(s, store.origin, store.log, laps, clients) && rounds > Potential(old(store.workloads), row) ==>
              OldCount(store.workloads, row) == 0)
  {
    hide Run, LawfulRun, Sound, Unhindered, RollsTo, Watched, UniqueListing, NoneStrayed, OutSince, SteadySince;
    hide AllSmooth, SmoothLap, Healthy, SmoothSince, AllUp, Settled;
    ghost var row, l0 := store.services[s], store.log;
    rounds, ts, ms, laps := 0, [store.Now()], [], [];
    RollsFromHere(row, store.origin, l0);
    while rounds < |clients| && !store.services[s].deployment.DeploymentFailed?
      invariant store.Valid() && store.origin == old(store.origin) && l0 <= store.log && rounds <= |clients|
      invariant s in store.services && forall o :: o in store.services ==> store.services[o].id == o
      invariant store.services[s] == WithDeployment(row, store.services[s].deployment)
      invariant |laps| == rounds && Within(laps, |store.log|)
      invariant AllSmooth(s, store.origin, store.log, laps, clients) && rounds > 0 ==> AllUp(store.workloads, s)
      invariant Unhindered(row, store.origin, store.log, |l0|) ==>
        RollsTo(row, store.origin, store.log, |l0|, rounds,
          if AllSmooth(s, store.origin, store.log, laps, clients) then Sure(rounds) else 0, ts, ms)
      decreases |clients| - rounds
    {
      ghost var before, d := store.log, store.services[s].deployment;
      store.Interfere();
      ghost var l1, t1 := store.log, store.Now();
      ghost var cut := Reconcile(store, clients[rounds], clock[rounds], timeout, s);
      SameForBoth(row, d, store.origin, store.log, |l1|, cut);
      ghost var lap := Lap(|l1|, |store.log|);
      if AllSmooth(s, store.origin, store.log, laps + [lap], clients) {
        SmoothBefore(s, store.origin, before, store.log, laps, lap, clients);
        LapIsSmooth(s, store.origin, l1, store.log, clients[rounds]);
        if rounds > 0 { UpIsSettled(row, Run(store.origin, store.log[..cut.start]).workloads); }
      }
      if Unhindered(row, store.origin, store.log, |l0|) {
        UnhinderedPrefix(row, store.origin, before, store.log, |l0|, |l0|);
        ghost var sure := if AllSmooth(s, store.origin, before, laps, clients) then Sure(rounds) else 0;
        ts, ms := RollOn(row, store.origin, before, l1, store.log, |l0|, cut, rounds, sure, ts, ms);
        RollsLess(row, store.origin, store.log, |l0|, rounds + 1, ts, ms);
      }
      rounds, laps := rounds + 1, laps + [lap];
    }
    if Unhindered(row, store.origin, store.log, |l0|) {
      RollsLess(row, store.origin, store.log, |l0|, rounds, ts, ms);
      if Launched(row, old(store.workloads)) {
        assert store.log[..|l0|] == l0;
        RollConcludes(row, store.origin, store.log, |l0|, rounds, ts, ms);
      }
    }
  }

  lemma LapIsSmooth(s: ServiceId, t: Cluster, l1: seq<Event>, l2: seq<Event>, client: NodeClient)
    requires l1 <= l2 && SmoothLap(s, t, l2, Lap(|l1|, |l2|), client)
    ensures client.reliable && Healthy(s, Run(t, l1), client.listings) && SmoothSince(s, t, l2, |l1|)
  {
    hide Run, Healthy, SmoothSince;
    assert l2[..|l1|] == l1 && l2[..|l2|] == l2;
  }

  /** The bound on the settled calls may be lowered. */
  lemma RollsLess(s: Service, t: Cluster, es: seq<Event>, from: nat, rounds: nat, ts: seq<Cluster>, ms: seq<Move>)
    requires from <= |es|
    ensures forall n, m: int :: m <= n && RollsTo(s, t, es, from, rounds, n, ts, ms) ==>
      RollsTo(s, t, es, from, rounds, m, ts, ms)
    ensures forall n: int :: RollsTo(s, t, es, from, rounds, n, ts, ms) ==>
      |ts| == |ms| + 1 && SettledCalls(s, ts, ms) >= n
  {
  }

  lemma RollsFromHere(s: Service, t: Cluster, es: seq<Event>)
    ensures RollsTo(s, t, es, |es|, 0, 0, [Run(t, es)], [])
  {
    assert es[..|es|] == es;
  }

  lemma RollConcludes(s: Service, t: Cluster, es: seq<Event>, from: nat, rounds: nat, ts: seq<Cluster>, ms: seq<Move>)
    requires from <= |es| && RollsTo(s, t, es, from, rounds, 0, ts, ms) && Launched(s, Run(t, es[..from]).workloads)
    ensures |ts| == |ms| + 1
    ensures ActiveCount(Run(t, es).workloads, s)
         <= Max(ActiveCount(Run(t, es[..from]).workloads, s), s.desiredReplicas + s.maxSurge)
    ensures !s.deployment.DeploymentFailed? && SettledCalls(s, ts, ms) >= Potential(Run(t, es[..from]).workloads, s) ==>
      OldCount(Run(t, es).workloads, s) == 0
  {
    hide Run, Potential, InOrder;
    Lengths(s, ts, ms);
    RolloutSafeAndBounded(s, ts, ms);
    if !s.deployment.DeploymentFailed? && SettledCalls(s, ts, ms) >= Potential(Run(t, es[..from]).workloads, s) {
      RolloutFinishes(s, ts, ms);
    }
  }
}
