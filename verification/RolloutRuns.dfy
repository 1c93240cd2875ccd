/**
  Whole rollouts: deployment and replica controller calls of one service specification, interleaved in any
  order with placements, starts, stops, failures of older workloads, node writes and the life of other services.
 */
module RolloutRuns {
  import opened Model
  import opened Tables
  import opened Ledger
  import opened Replicas
  import opened Rollout

  datatype Move = Deploy(action: Action) | Scale | Background(event: Event)

  /**
    What may happen besides the two controllers. Excluded are: a finished workload of the service that was not
    asked to stop is revived in place, a workload asked to stop comes back by a node recovery, one of the
    current version fails, and others create workloads of the service or ask them to stop.
   */
  ghost predicate Neutral(s: Service, t: Cluster, e: Event) {
    match e
    case Create(w) => w.service != s.id
    case SetDesired(id, _) => id in t.workloads ==> t.workloads[id].service != s.id
    case SetActual(id, _) =>
      id in t.workloads ==>
        t.workloads[id].service != s.id || t.workloads[id].desired.Stopped? || InUse(t.workloads[id].actual)
    case FailAndRelease(id) =>
      id in t.workloads ==>
        t.workloads[id].service != s.id || t.workloads[id].version < s.version || t.workloads[id].actual.Failed?
    case Recover(n) =>
      forall id :: id in OccupyingOn(t.workloads, n) ==>
        t.workloads[id].service != s.id || !t.workloads[id].desired.Stopped?
    case _ => true
  }

  ghost predicate Moves(s: Service, m: Move, a: Cluster, b: Cluster) {
    match m
    case Deploy(action) => b.nodes == a.nodes && DeployMove(s, action, a.workloads, b.workloads)
    case Scale => b.nodes == a.nodes &&
      exists ws :: Lists(ws, a.workloads, s.id) && ReplicaMove(s, ws, a.workloads, b.workloads)
    case Background(e) => Lawful(a, e) && Neutral(s, a, e) && b == Step(a, e)
  }

  /** `ts` are the states of a run and `ms` its moves. */
  ghost predicate Rollouts(s: Service, ts: seq<Cluster>, ms: seq<Move>) {
    && |ts| == |ms| + 1
    && forall i :: 0 <= i < |ms| ==> Moves(s, ms[i], ts[i], ts[i + 1])
  }

  predicate Ages(s: Service, t: Cluster, e: Event, id: WorkloadId) {
    e.FailAndRelease? && e.id == id && Commits(t, e) &&
    id in t.workloads && Belongs(t.workloads[id], s.id, OldActive(s.version))
  }

  lemma BackgroundRow(s: Service, a: Cluster, e: Event, id: WorkloadId)
    requires Keyed(a.workloads) && Lawful(a, e) && Neutral(s, a, e)
    requires id in Step(a, e).workloads && Step(a, e).workloads[id].service == s.id
    ensures var w' := Step(a, e).workloads[id];
      && id in a.workloads && a.workloads[id].service == s.id
      && w'.id == id && w'.version == a.workloads[id].version
      && (IsActive(w') <==> IsActive(a.workloads[id]) && !Ages(s, a, e, id))
      && (w'.version == s.version && w'.actual.Failed? ==> a.workloads[id].actual.Failed?)
  {
    match e
    case Recover(n) =>
      assert id in OccupyingOn(a.workloads, n) <==>
        id in a.workloads && InUse(a.workloads[id].actual) && a.workloads[id].node == Some(n);
    case _ =>
  }

  lemma StepKeepsRows(a: Cluster, e: Event)
    requires Keyed(a.workloads)
    ensures Keyed(Step(a, e).workloads)
    ensures forall id :: id in a.workloads ==>
      id in Step(a, e).workloads && Step(a, e).workloads[id].service == a.workloads[id].service
  {
  }

  /** A background event leaves the active workloads alone, except that older ones may fail. */
  lemma BackgroundOnlyLoses(s: Service, a: Cluster, e: Event) returns (gone: set<WorkloadId>)
    requires Keyed(a.workloads) && Lawful(a, e) && Neutral(s, a, e)
    ensures var b := Step(a, e);
      && Keyed(b.workloads)
      && gone <= Members(a.workloads, s.id, OldActive(s.version))
      && Members(b.workloads, s.id, OldActive(s.version)) == Members(a.workloads, s.id, OldActive(s.version)) - gone
      && Members(b.workloads, s.id, AnyActive) == Members(a.workloads, s.id, AnyActive) - gone
      && (NoneNewer(a.workloads, s) ==> NoneNewer(b.workloads, s))
      && Members(b.workloads, s.id, FailedAt(s.version)) <= Members(a.workloads, s.id, FailedAt(s.version))
  {
    gone := set id | id in a.workloads && Ages(s, a, e, id);
    StepKeepsRows(a, e);
    var b := Step(a, e);
    forall id | id in b.workloads && b.workloads[id].service == s.id
      ensures var w' := b.workloads[id];
        && id in a.workloads && a.workloads[id].service == s.id
        && w'.version == a.workloads[id].version
        && (IsActive(w') <==> IsActive(a.workloads[id]) && id !in gone)
        && (w'.version == s.version && w'.actual.Failed? ==> a.workloads[id].actual.Failed?)
    {
      BackgroundRow(s, a, e, id);
    }
    hide Step, Commits, Lawful, Neutral, IsActive;
  }

  /**
    The exclusions are exact: a lawful event that is not a stop request is neutral if and only if it makes no
    workload of the service active and none of the current version failed.
   */
  lemma NeutralExactly(s: Service, a: Cluster, e: Event)
    requires Sound(a) && Lawful(a, e) && !e.SetDesired?
    requires forall id :: id in a.workloads && a.workloads[id].service == s.id ==> a.workloads[id].version <= s.version
    ensures Neutral(s, a, e) <==>
      && Members(Step(a, e).workloads, s.id, AnyActive) <= Members(a.workloads, s.id, AnyActive)
      && Members(Step(a, e).workloads, s.id, FailedAt(s.version)) <= Members(a.workloads, s.id, FailedAt(s.version))
  {
    var b := Step(a, e).workloads;
    if Neutral(s, a, e) {
      var _ := BackgroundOnlyLoses(s, a, e);
    } else if e.Recover? {
      var id :| id in OccupyingOn(a.workloads, e.node) && a.workloads[id].service == s.id &&
        a.workloads[id].desired.Stopped?;
      assert id in Members(b, s.id, AnyActive) && id !in Members(a.workloads, s.id, AnyActive);
    } else if e.FailAndRelease? {
      assert e.id in Members(b, s.id, FailedAt(s.version)) && e.id !in Members(a.workloads, s.id, FailedAt(s.version));
    } else {
      var id := if e.Create? then e.row.id else e.id;
      assert id in Members(b, s.id, AnyActive) && id !in Members(a.workloads, s.id, AnyActive);
    }
  }

  ghost predicate InOrder(s: Service, rows: Rows) {
    Keyed(rows) && NoneNewer(rows, s)
  }

  /** What every single move of a run keeps. */
  lemma MoveKeeps(s: Service, m: Move, a: Cluster, b: Cluster)
    requires InOrder(s, a.workloads) && Moves(s, m, a, b) && s.version >= 1 && s.maxSurge >= 0
    ensures InOrder(s, b.workloads)
    ensures ActiveCount(b.workloads, s) <= Max(ActiveCount(a.workloads, s), s.desiredReplicas + s.maxSurge)
    ensures OldCount(a.workloads, s) == 0 ==> OldCount(b.workloads, s) == 0
    ensures Potential(b.workloads, s) <= Potential(a.workloads, s) - (if m.Deploy? && !m.action.Idle? then 1 else 0)
    ensures Census(a.workloads, s.id, FailedAt(s.version)) == 0 ==> Census(b.workloads, s.id, FailedAt(s.version)) == 0
  {
    match m
    case Deploy(action) => DeployKeeps(s, action, a.workloads, b.workloads);
    case Scale =>
      var ws :| Lists(ws, a.workloads, s.id) && ReplicaMove(s, ws, a.workloads, b.workloads);
      ScaleKeeps(s, ws, a.workloads, b.workloads);
    case Background(e) => BackgroundKeeps(s, a, e);
  }

  lemma DeployKeeps(s: Service, action: Action, a: Rows, b: Rows)
    requires InOrder(s, a) && DeployMove(s, action, a, b)
    ensures InOrder(s, b)
    ensures ActiveCount(b, s) <= Max(ActiveCount(a, s), s.desiredReplicas + s.maxSurge)
    ensures OldCount(a, s) == 0 ==> OldCount(b, s) == 0
    ensures Potential(b, s) <= Potential(a, s) - (if !action.Idle? then 1 else 0)
    ensures Census(a, s.id, FailedAt(s.version)) == 0 ==> Census(b, s.id, FailedAt(s.version)) == 0
  {
    DeployMoveSafe(s, action, a, b);
    assert Keyed(b);
    assert Members(b, s.id, FailedAt(s.version)) == Members(a, s.id, FailedAt(s.version));
  }

  lemma ScaleKeeps(s: Service, ws: seq<Workload>, a: Rows, b: Rows)
    requires InOrder(s, a) && Lists(ws, a, s.id) && ReplicaMove(s, ws, a, b) && s.version >= 1 && s.maxSurge >= 0
    ensures InOrder(s, b)
    ensures ActiveCount(b, s) <= Max(ActiveCount(a, s), s.desiredReplicas + s.maxSurge)
    ensures OldCount(a, s) == 0 ==> OldCount(b, s) == 0
    ensures Potential(b, s) <= Potential(a, s)
    ensures Census(a, s.id, FailedAt(s.version)) == 0 ==> Census(b, s.id, FailedAt(s.version)) == 0
  {
    if s.status.Active? && !s.deployment.DeploymentFailed? && OldCount(a, s) == 0 {
      ReplicaMoveCounts(s, ws, a, b);
    }
    assert Members(b, s.id, FailedAt(s.version)) == Members(a, s.id, FailedAt(s.version));
  }

  lemma BackgroundKeeps(s: Service, a: Cluster, e: Event)
    requires InOrder(s, a.workloads) && Lawful(a, e) && Neutral(s, a, e)
    ensures var b := Step(a, e);
      && InOrder(s, b.workloads)
      && ActiveCount(b.workloads, s) <= ActiveCount(a.workloads, s)
      && OldCount(b.workloads, s) <= OldCount(a.workloads, s)
      && Potential(b.workloads, s) <= Potential(a.workloads, s)
      && Census(b.workloads, s.id, FailedAt(s.version)) <= Census(a.workloads, s.id, FailedAt(s.version))
  {
    var gone := BackgroundOnlyLoses(s, a, e);
    hide In, Step, Commits, Lawful, Neutral;
    var b := Step(a, e);
    assert Members(a.workloads, s.id, OldActive(s.version)) <= Members(a.workloads, s.id, AnyActive) by {
      OldIsActive(a.workloads, s);
    }
    SizeOfRest(Members(a.workloads, s.id, OldActive(s.version)), gone);
    SizeOfRest(Members(a.workloads, s.id, AnyActive), gone);
    SizeOfSubset(Members(b.workloads, s.id, FailedAt(s.version)), Members(a.workloads, s.id, FailedAt(s.version)));
  }

  lemma OldIsActive(rows: Rows, s: Service)
    ensures Members(rows, s.id, OldActive(s.version)) <= Members(rows, s.id, AnyActive)
  {
  }

  lemma SizeOfSubset(x: set<WorkloadId>, y: set<WorkloadId>)
    requires x <= y
    ensures |x| <= |y|
  {
    SizeOfRest(y, x);
  }

  // ---- All runs ----

  function Actions(ms: seq<Move>): nat {
    if |ms| == 0 then 0
    else Actions(ms[..|ms| - 1]) + if ms[|ms| - 1].Deploy? && !ms[|ms| - 1].action.Idle? then 1 else 0
  }

  /** The deployment calls that were made while every active workload of the service was running. */
  ghost function SettledCalls(s: Service, ts: seq<Cluster>, ms: seq<Move>): nat
    requires |ts| == |ms| + 1
  {
    if |ms| == 0 then 0
    else
      SettledCalls(s, ts[..|ms|], ms[..|ms| - 1]) +
      if ms[|ms| - 1].Deploy? && Settled(ts[|ms| - 1].workloads, s) then 1 else 0
  }

  lemma Shorter(s: Service, ts: seq<Cluster>, ms: seq<Move>)
    requires Rollouts(s, ts, ms) && |ms| > 0
    ensures Rollouts(s, ts[..|ms|], ms[..|ms| - 1])
    ensures Moves(s, ms[|ms| - 1], ts[|ms| - 1], ts[|ms|])
    ensures ts[..|ms|][|ms| - 1] == ts[|ms| - 1]
  {
    var ts', ms' := ts[..|ms|], ms[..|ms| - 1];
    forall i | 0 <= i < |ms'| ensures Moves(s, ms'[i], ts'[i], ts'[i + 1]) {
      assert Moves(s, ms[i], ts[i], ts[i + 1]);
    }
    assert Moves(s, ms[|ms| - 1], ts[|ms| - 1], ts[|ms| - 1 + 1]);
  }

  /**
    Over any run the active workloads never exceed `desired + maxSurge` (or their initial number), and the
    controller takes at most `2 * old + missing surge room` actions.
   */
  lemma {:induction false} RolloutSafeAndBounded(s: Service, ts: seq<Cluster>, ms: seq<Move>)
    requires Rollouts(s, ts, ms) && InOrder(s, ts[0].workloads) && s.version >= 1 && s.maxSurge >= 0
    ensures InOrder(s, ts[|ms|].workloads)
    ensures ActiveCount(ts[|ms|].workloads, s) <= Max(ActiveCount(ts[0].workloads, s), s.desiredReplicas + s.maxSurge)
    ensures Actions(ms) + Potential(ts[|ms|].workloads, s) <= Potential(ts[0].workloads, s)
    ensures Census(ts[0].workloads, s.id, FailedAt(s.version)) == 0 ==>
      Census(ts[|ms|].workloads, s.id, FailedAt(s.version)) == 0
    decreases |ms|
  {
    if |ms| > 0 {
      hide Moves, InOrder, Potential;
      Shorter(s, ts, ms);
      RolloutSafeAndBounded(s, ts[..|ms|], ms[..|ms| - 1]);
      MoveKeeps(s, ms[|ms| - 1], ts[|ms| - 1], ts[|ms|]);
    }
  }

  lemma {:induction false} ProgressOrDone(s: Service, ts: seq<Cluster>, ms: seq<Move>)
    requires Rollouts(s, ts, ms) && InOrder(s, ts[0].workloads) && s.version >= 1
    requires s.maxSurge >= 0 && s.maxUnavailable >= 0 && s.maxSurge + s.maxUnavailable >= 1
    requires !s.deployment.DeploymentFailed? && Census(ts[0].workloads, s.id, FailedAt(s.version)) == 0
    ensures OldCount(ts[|ms|].workloads, s) == 0 ||
      SettledCalls(s, ts, ms) + Potential(ts[|ms|].workloads, s) <= Potential(ts[0].workloads, s)
    decreases |ms|
  {
    if |ms| > 0 {
      hide InOrder, Potential;
      var m, a, b := ms[|ms| - 1], ts[|ms| - 1], ts[|ms|];
      Shorter(s, ts, ms);
      ProgressOrDone(s, ts[..|ms|], ms[..|ms| - 1]);
      RolloutSafeAndBounded(s, ts[..|ms|], ms[..|ms| - 1]);
      MoveKeeps(s, m, a, b);
      if m.Deploy? && Settled(a.workloads, s) && OldCount(a.workloads, s) > 0 {
        SettledCallActs(s, m.action, a.workloads, b.workloads);
      }
    }
  }

  lemma SettledCallActs(s: Service, action: Action, a: Rows, b: Rows)
    requires InOrder(s, a) && DeployMove(s, action, a, b)
    requires s.maxSurge + s.maxUnavailable >= 1
    requires !s.deployment.DeploymentFailed? && Census(a, s.id, FailedAt(s.version)) == 0
    requires OldCount(a, s) > 0 && Settled(a, s)
    ensures !action.Idle?
  {
    var ws :| Lists(ws, a, s.id) && action == NextAction(s, ws) && ActedAs(s, action, a, b);
    StuckExactly(a, s, ws);
  }

  /**
    Termination: under the validator's condition, once the controller has been called with every active
    workload running as often as `2 * old + missing surge room`, no older workload is active any more.
   */
  lemma RolloutFinishes(s: Service, ts: seq<Cluster>, ms: seq<Move>)
    requires Rollouts(s, ts, ms) && InOrder(s, ts[0].workloads) && s.version >= 1
    requires s.maxSurge >= 0 && s.maxUnavailable >= 0 && s.maxSurge + s.maxUnavailable >= 1
    requires !s.deployment.DeploymentFailed? && Census(ts[0].workloads, s.id, FailedAt(s.version)) == 0
    requires SettledCalls(s, ts, ms) >= Potential(ts[0].workloads, s)
    ensures OldCount(ts[|ms|].workloads, s) == 0
  {
    ProgressOrDone(s, ts, ms);
  }

  // ---- Runs read off the log ----

  /** The deployment calls of a run. */
  function Calls(ms: seq<Move>): nat {
    if |ms| == 0 then 0 else Calls(ms[..|ms| - 1]) + if ms[|ms| - 1].Deploy? then 1 else 0
  }

  /** Where in the log a cycle called the two controllers for a service. */
  datatype Cut = Cut(start: nat, deployed: nat, scaled: nat)

  ghost predicate Deploys(s: Service, a: Cluster, b: Cluster) {
    exists action :: Moves(s, Deploy(action), a, b)
  }

  /** From position `from` on, service `s` is steered by one call of each controller, where the cut says. */
  ghost predicate Watched(s: Service, t: Cluster, es: seq<Event>, from: nat, cut: Cut) {
    && from <= cut.start <= cut.deployed <= cut.scaled <= |es|
    && Leaves(t, es, from, cut.start, s.id) && Leaves(t, es, cut.scaled, |es|, s.id)
    && Deploys(s, Run(t, es[..cut.start]), Run(t, es[..cut.deployed]))
    && Moves(s, Scale, Run(t, es[..cut.deployed]), Run(t, es[..cut.scaled]))
  }

  /** Apart from creations and stop requests, everything in the log from `from` on is neutral for the service. */
  ghost predicate Unhindered(s: Service, t: Cluster, es: seq<Event>, from: nat) {
    forall k :: from <= k < |es| && !es[k].Create? && !es[k].SetDesired? ==> Neutral(s, Run(t, es[..k]), es[k])
  }

  lemma WatchedLater(s: Service, t: Cluster, es: seq<Event>, more: seq<Event>, from: nat, cut: Cut, o: ServiceId)
    requires Watched(s, t, es, from, cut) && es <= more && SteersOnly(t, more, |es|, o) && o != s.id
    ensures Watched(s, t, more, from, cut)
  {
    hide Run, SteersFor, Deploys, Moves;
    forall k | 0 <= k <= |es| ensures more[..k] == es[..k] {
    }
    LeavesLater(t, es, more, from, cut.start, s.id);
    LeavesLater(t, es, more, cut.scaled, |es|, s.id);
    forall k | |es| <= k < |more| ensures !SteersFor(Run(t, more[..k]), more[k], s.id) {
    }
  }

  lemma LeavesLater(t: Cluster, es: seq<Event>, more: seq<Event>, from: nat, to: nat, s: ServiceId)
    requires es <= more && Leaves(t, es, from, to, s)
    ensures Leaves(t, more, from, to, s)
  {
    hide Run, SteersFor;
    forall k | from <= k < to ensures !SteersFor(Run(t, more[..k]), more[k], s) {
      assert more[..k] == es[..k] && more[k] == es[k];
    }
  }

  lemma WatchedEarlier(s: Service, t: Cluster, es: seq<Event>, from: nat, mid: nat, cut: Cut)
    requires Watched(s, t, es, mid, cut) && Leaves(t, es, from, mid, s.id)
    ensures Watched(s, t, es, from, cut)
  {
    hide Run, SteersFor, Deploys, Moves;
  }

  lemma LeftIsNeutral(s: Service, t: Cluster, e: Event)
    requires !SteersFor(t, e, s.id) && (!e.Create? && !e.SetDesired? ==> Neutral(s, t, e))
    ensures Neutral(s, t, e)
  {
  }

  lemma BackgroundMoves(s: Service, t: Cluster, es: seq<Event>, from: nat, to: nat)
    returns (ts: seq<Cluster>, ms: seq<Move>)
    requires LawfulRun(t, es) && Leaves(t, es, from, to, s.id) && Unhindered(s, t, es, from)
    ensures Rollouts(s, ts, ms) && ts[0] == Run(t, es[..from]) && ts[|ms|] == Run(t, es[..to]) && Calls(ms) == 0
  {
    hide Run, LawfulRun, SteersFor, Neutral, Lawful;
    ts := seq(to - from + 1, i requires 0 <= i <= to - from => Run(t, es[..from + i]));
    ms := seq(to - from, i requires 0 <= i < to - from => Background(es[from + i]));
    forall i | 0 <= i < |ms| ensures Moves(s, ms[i], ts[i], ts[i + 1]) {
      LawfulPrefix(t, es, from + i + 1);
      PrefixStep(t, es, from + i);
      LeftIsNeutral(s, Run(t, es[..from + i]), es[from + i]);
    }
    NoCalls(ms);
  }

  lemma {:induction false} NoCalls(ms: seq<Move>)
    requires forall m :: m in ms ==> !m.Deploy?
    ensures Calls(ms) == 0
  {
    if |ms| > 0 {
      assert ms[|ms| - 1] in ms;
      NoCalls(ms[..|ms| - 1]);
    }
  }

  lemma {:induction false} CallsAdd(xs: seq<Move>, ys: seq<Move>)
    ensures Calls(xs + ys) == Calls(xs) + Calls(ys)
  {
    if |ys| == 0 {
      assert xs + ys == xs;
    } else {
      assert (xs + ys)[..|xs + ys| - 1] == xs + ys[..|ys| - 1];
      CallsAdd(xs, ys[..|ys| - 1]);
    }
  }

  lemma {:induction false} SettledCallsAdd(s: Service, ts: seq<Cluster>, ms: seq<Move>, us: seq<Cluster>, ns: seq<Move>)
    requires |ts| == |ms| + 1 && |us| == |ns| + 1 && ts[|ms|] == us[0]
    ensures SettledCalls(s, ts + us[1..], ms + ns) == SettledCalls(s, ts, ms) + SettledCalls(s, us, ns)
    decreases |ns|
  {
    if |ns| == 0 {
      assert ts + us[1..] == ts && ms + ns == ms;
    } else {
      var vs, os := ts + us[1..], ms + ns;
      SettledCallsAdd(s, ts, ms, us[..|ns|], ns[..|ns| - 1]);
      assert vs[..|os|] == ts + us[..|ns|][1..] && os[..|os| - 1] == ms + ns[..|ns| - 1];
      assert vs[|os| - 1] == us[|ns| - 1] && os[|os| - 1] == ns[|ns| - 1];
    }
  }

  lemma Joined(s: Service, ts: seq<Cluster>, ms: seq<Move>, us: seq<Cluster>, ns: seq<Move>)
    requires Rollouts(s, ts, ms) && Rollouts(s, us, ns) && ts[|ms|] == us[0]
    ensures Rollouts(s, ts + us[1..], ms + ns) && Calls(ms + ns) == Calls(ms) + Calls(ns)
    ensures (ts + us[1..])[0] == ts[0] && (ts + us[1..])[|ms + ns|] == us[|ns|]
    ensures SettledCalls(s, ts + us[1..], ms + ns) == SettledCalls(s, ts, ms) + SettledCalls(s, us, ns)
  {
    hide Moves;
    CallsAdd(ms, ns);
    SettledCallsAdd(s, ts, ms, us, ns);
    var vs := ts + us[1..];
    forall i | 0 <= i < |ms + ns| ensures Moves(s, (ms + ns)[i], vs[i], vs[i + 1]) {
      if i < |ms| {
        assert Moves(s, ms[i], ts[i], ts[i + 1]);
      } else {
        assert Moves(s, ns[i - |ms|], us[i - |ms|], us[i - |ms| + 1]);
      }
    }
  }

  /** A cycle that nothing hinders is a stretch of a rollout with one call of the deployment controller. */
  lemma CycleMoves(s: Service, t: Cluster, es: seq<Event>, from: nat, cut: Cut)
    returns (ts: seq<Cluster>, ms: seq<Move>)
    requires LawfulRun(t, es) && Watched(s, t, es, from, cut) && Unhindered(s, t, es, from)
    ensures Rollouts(s, ts, ms) && ts[0] == Run(t, es[..from]) && ts[|ms|] == Run(t, es) && Calls(ms) == 1
    ensures Settled(Run(t, es[..cut.start]).workloads, s) ==> SettledCalls(s, ts, ms) >= 1
  {
    hide Run, LawfulRun, Leaves, Moves, Calls, Settled, SettledCalls;
    assert es[..|es|] == es;
    ts, ms := BackgroundMoves(s, t, es, from, cut.start);
    var action :| Moves(s, Deploy(action), Run(t, es[..cut.start]), Run(t, es[..cut.deployed]));
    var call := [Deploy(action), Scale];
    var states := [Run(t, es[..cut.start]), Run(t, es[..cut.deployed]), Run(t, es[..cut.scaled])];
    OneCall(s, action, states);
    Joined(s, ts, ms, states, call);
    ts, ms := ts + states[1..], ms + call;
    var us, ns := BackgroundMoves(s, t, es, cut.scaled, |es|);
    Joined(s, ts, ms, us, ns);
    ts, ms := ts + us[1..], ms + ns;
  }

  lemma OneCall(s: Service, action: Action, states: seq<Cluster>)
    requires |states| == 3
    ensures Calls([Deploy(action), Scale]) == 1
    ensures Settled(states[0].workloads, s) ==> SettledCalls(s, states, [Deploy(action), Scale]) == 1
  {
    var call := [Deploy(action), Scale];
    assert call[..1] == [Deploy(action)] && call[..1][..0] == [];
    assert Calls(call[..1]) == 1;
    assert states[..2][..1] == states[..1] && SettledCalls(s, states[..1], []) == 0;
    assert Settled(states[0].workloads, s) ==> SettledCalls(s, states[..2], call[..1]) == 1;
  }
}
