/**
  Autoscaling decisions: the replica target, the step limit, the cooldown, and what they bound over any
  run of visits to one service. CPU targets are exact rationals, times are in nanoseconds.
 */
module Policy {
  import opened Model
  import opened Services

  const SECOND := 1_000_000_000

  // ---- Decisions of one visit ----

  function Ceil(x: real): int {
    -((-x).Floor)
  }

  function PerReplica(s: Service): real {
    s.cpu as real * s.autoscaling.targetCpu / 100.0
  }

  /** The replicas the measured usage asks for, before any limit. */
  function RawTarget(s: Service, total: int): int
    requires PerReplica(s) > 0.0
  {
    Ceil(total as real / PerReplica(s))
  }

  function Clamp(n: int, low: int, high: int): int {
    Min(Max(n, low), high)
  }

  function LimitScaleStep(current: int, desired: int, maxStep: int): int {
    if maxStep <= 0 then current
    else if desired > current + maxStep then current + maxStep
    else if desired < current - maxStep then current - maxStep
    else desired
  }

  /** The cooldown that a change to `desired` has to wait for. */
  function Cooldown(s: Service, desired: int): int {
    SECOND * (if desired > s.desiredReplicas then s.autoscaling.scaleUpCooldown else s.autoscaling.scaleDownCooldown)
  }

  predicate CooldownActive(s: Service, desired: int, now: int) {
    s.lastScaledAt.Some? && desired != s.desiredReplicas && now - s.lastScaledAt.value < Cooldown(s, desired)
  }

  /** Whether a visit looks at the workloads of the service at all. */
  predicate Considered(s: Service) {
    s.status.Active? && !s.deployment.Progressing? && s.autoscaling.enabled && s.autoscaling.targetCpu > 0.0
  }

  function Goal(s: Service, total: int): int
    requires PerReplica(s) > 0.0
  {
    Clamp(RawTarget(s, total), s.autoscaling.minReplicas, s.autoscaling.maxReplicas)
  }

  /** The replica count that is put to the stability window, if any. */
  function Proposal(s: Service, running: nat, total: int, now: int): Option<int> {
    if !Considered(s) || running == 0 || PerReplica(s) <= 0.0 then None
    else if Goal(s, total) == s.desiredReplicas then None
    else
      var next := LimitScaleStep(s.desiredReplicas, Goal(s, total), s.autoscaling.maxScaleStep);
      if next == s.desiredReplicas || CooldownActive(s, next, now) then None else Some(next)
  }

  // ---- What they mean ----

  lemma CeilIsLeast(x: real, n: int)
    ensures Ceil(x) <= n <==> x <= n as real
  {
    var low := (-x).Floor;
    if x <= n as real {
      assert -n <= low;
    }
  }

  /** `n` replicas cover the usage: each runs at no more than its CPU target, in percent of its CPU request. */
  predicate Covers(s: Service, total: int, n: int) {
    100.0 * total as real <= n as real * s.cpu as real * s.autoscaling.targetCpu
  }

  /** The raw target is the least number of replicas that cover the usage. */
  lemma TargetIsLeast(s: Service, total: int, n: int)
    requires s.autoscaling.targetCpu > 0.0
    ensures PerReplica(s) > 0.0
    ensures RawTarget(s, total) <= n
       <==> 100.0 * total as real <= n as real * s.cpu as real * s.autoscaling.targetCpu
  {
    var cpu, target := s.cpu as real, s.autoscaling.targetCpu;
    assert cpu * target > 0.0;
    var per := PerReplica(s);
    assert 100.0 * per == cpu * target;
    var x := total as real / per;
    CeilIsLeast(x, n);
    assert x * per == total as real;
    ScaleKeepsOrder(x, n as real, per);
    assert n as real * cpu * target == 100.0 * (n as real * per) by {
      assert n as real * cpu * target == n as real * (cpu * target);
    }
  }

  lemma ScaleKeepsOrder(x: real, y: real, per: real)
    requires per > 0.0
    ensures x <= y <==> x * per <= y * per
  {
    if x > y {
      assert (x - y) * per > 0.0;
    } else {
      assert (y - x) * per >= 0.0;
    }
  }

  /** The clamped target is permitted, and no permitted count is nearer to the raw one. */
  lemma ClampIsNearest(n: int, low: int, high: int, m: int)
    requires low <= m <= high
    ensures low <= Clamp(n, low, high) <= high
    ensures Distance(Clamp(n, low, high), n) <= Distance(m, n)
  {
  }

  function Distance(x: int, y: int): nat {
    if x >= y then x - y else y - x
  }

  /** A proposal moves towards the clamped target, by no more than the step and never past it. */
  lemma ProposalMovesTowardsGoal(s: Service, running: nat, total: int, now: int)
    requires Proposal(s, running, total, now).Some?
    ensures var n, goal, d := Proposal(s, running, total, now).value, Goal(s, total), s.desiredReplicas;
      && (d < n <= goal || goal <= n < d)
      && (n == goal || Distance(n, d) == s.autoscaling.maxScaleStep)
      && Distance(n, d) <= s.autoscaling.maxScaleStep
      && (s.lastScaledAt.Some? ==> now - s.lastScaledAt.value >= Cooldown(s, n))
  {
  }

  /** A considered service with a running replica gets a proposal unless it is settled, stuck or cooling down. */
  lemma ProposalUnless(s: Service, running: nat, total: int, now: int)
    requires Considered(s) && running > 0 && PerReplica(s) > 0.0
    ensures Proposal(s, running, total, now).None? <==>
      || Goal(s, total) == s.desiredReplicas
      || s.autoscaling.maxScaleStep < 1
      || (s.lastScaledAt.Some? &&
          now - s.lastScaledAt.value < Cooldown(s, Goal(s, total)))
  {
  }

  // ---- The whole decision ----

  ghost predicate LeastCovering(s: Service, total: int, n: int) {
    forall m :: n <= m <==> Covers(s, total, m)
  }

  /** The permitted count nearest to the least one that covers the usage; the upper limit wins over the lower. */
  ghost predicate IsGoal(s: Service, total: int, g: int) {
    var config := s.autoscaling;
    exists n :: LeastCovering(s, total, n) && NearestPermitted(n, config.minReplicas, config.maxReplicas, g)
  }

  ghost predicate NearestPermitted(n: int, low: int, high: int, g: int) {
    if low <= high then low <= g <= high && forall m :: low <= m <= high ==> Distance(g, n) <= Distance(m, n)
    else g == high
  }

  lemma GoalIsGoal(s: Service, total: int)
    requires s.autoscaling.targetCpu > 0.0
    ensures PerReplica(s) > 0.0 && IsGoal(s, total, Goal(s, total))
  {
    TargetIsLeast(s, total, 0);
    var n, config := RawTarget(s, total), s.autoscaling;
    forall m ensures n <= m <==> Covers(s, total, m) {
      TargetIsLeast(s, total, m);
    }
    assert LeastCovering(s, total, n);
    forall m | config.minReplicas <= m <= config.maxReplicas ensures Distance(Goal(s, total), n) <= Distance(m, n) {
      ClampIsNearest(n, config.minReplicas, config.maxReplicas, m);
    }
    assert NearestPermitted(n, config.minReplicas, config.maxReplicas, Goal(s, total));
  }

  lemma OneGoal(s: Service, total: int, g: int, h: int)
    requires IsGoal(s, total, g) && IsGoal(s, total, h)
    ensures g == h
  {
    var low, high := s.autoscaling.minReplicas, s.autoscaling.maxReplicas;
    var n :| LeastCovering(s, total, n) && NearestPermitted(n, low, high, g);
    var m :| LeastCovering(s, total, m) && NearestPermitted(m, low, high, h);
    assert n <= n <==> Covers(s, total, n);
    assert m <= m <==> Covers(s, total, m);
    assert n == m;
    if low <= high {
      assert Distance(g, n) <= Distance(h, n) && Distance(h, n) <= Distance(g, n);
      var c := Clamp(n, low, high);
      assert Distance(g, n) <= Distance(c, n) && Distance(h, n) <= Distance(c, n);
    }
  }

  /**
    The decision of a visit, in terms of the row alone, `g` being the goal. There is a proposal exactly for an
    active service that is not rolling out, has autoscaling, runs something, is not at its goal, may move at all
    and has waited the cooldown of the direction; and it goes as far towards the goal as one step allows.
   */
  lemma ProposalExactly(s: Service, running: nat, total: int, now: int, g: int)
    requires s.autoscaling.targetCpu > 0.0 ==> IsGoal(s, total, g)
    ensures var config, d := s.autoscaling, s.desiredReplicas;
      var wait := 1_000_000_000 * (if g > d then config.scaleUpCooldown else config.scaleDownCooldown);
      Proposal(s, running, total, now).Some? <==>
        && s.status == Active && s.deployment != Progressing && running > 0
        && config.enabled && config.targetCpu > 0.0 && g != d && config.maxScaleStep >= 1
        && (s.lastScaledAt.Some? ==> now - s.lastScaledAt.value >= wait)
    ensures Proposal(s, running, total, now).Some? ==>
      var p, d := Proposal(s, running, total, now).value, s.desiredReplicas;
      && (d < p <= g || g <= p < d)
      && p - d <= s.autoscaling.maxScaleStep && d - p <= s.autoscaling.maxScaleStep
      && (p == g || p - d == s.autoscaling.maxScaleStep || d - p == s.autoscaling.maxScaleStep)
  {
    if s.autoscaling.targetCpu > 0.0 {
      GoalIsGoal(s, total);
      OneGoal(s, total, g, Goal(s, total));
      hide IsGoal, RawTarget, PerReplica;
    }
  }

  // ---- Reaching a constant target ----

  /** `k` limited steps from `current` towards `goal`. */
  function Climb(current: int, goal: int, step: int, k: nat): int {
    if k == 0 then current else LimitScaleStep(Climb(current, goal, step, k - 1), goal, step)
  }

  lemma {:induction false} ClimbIsStraight(current: int, goal: int, step: pos, k: nat)
    ensures Climb(current, goal, step, k) ==
      if goal >= current then Min(goal, current + k * step) else Max(goal, current - k * step)
  {
    if k > 0 {
      ClimbIsStraight(current, goal, step, k - 1);
      assert k * step == (k - 1) * step + step;
    }
  }

  /**
    A constant target is reached after exactly `ceil(distance / step)` steps, and never overshot on the way.
   */
  lemma ClimbReachesGoal(current: int, goal: int, step: pos, k: nat)
    ensures Climb(current, goal, step, k) == goal <==> k >= (Distance(goal, current) + step - 1) / step
    ensures Min(current, goal) <= Climb(current, goal, step, k) <= Max(current, goal)
  {
    ClimbIsStraight(current, goal, step, k);
    var d := Distance(goal, current);
    RoundUp(d, step, k);
    assert k * step >= 0;
  }

  lemma RoundUp(d: nat, step: pos, k: nat)
    ensures k >= (d + step - 1) / step <==> k * step >= d
  {
    var q, r := (d + step - 1) / step, (d + step - 1) % step;
    assert d + step - 1 == q * step + r;
    if k >= q {
      assert k * step >= q * step by { MultiplyKeepsOrder(q, k, step); }
    } else {
      assert k * step <= (q - 1) * step by { MultiplyKeepsOrder(k, q - 1, step); }
    }
  }

  lemma MultiplyKeepsOrder(x: int, y: int, z: nat)
    requires x <= y
    ensures x * z <= y * z && z * x <= z * y
  {
    assert (y - x) * z >= 0;
  }

  // ---- Runs of visits ----

  /** One visit: the row it was given, what it measured, and when it decided and wrote. */
  datatype Visit = Visit(service: Service, running: nat, total: int, now: int, at: int, stable: bool)

  /** The proposal passed the stability window; a negative count is refused by the table. */
  predicate Writes(v: Visit) {
    var p := Proposal(v.service, v.running, v.total, v.now);
    p.Some? && p.value >= 0 && v.stable
  }

  function After(v: Visit): Service {
    if Writes(v)
    then WithReplicas(v.service, Proposal(v.service, v.running, v.total, v.now).value, v.at)
    else v.service
  }

  /** Between two visits everything may change but the replica count and when it was last scaled. */
  predicate Follows(v: Visit, s: Service, now: int) {
    s.desiredReplicas == After(v).desiredReplicas && s.lastScaledAt == After(v).lastScaledAt && v.at <= now
  }

  ghost predicate Visits(vs: seq<Visit>) {
    && (forall k :: 0 <= k < |vs| ==> vs[k].now <= vs[k].at)
    && (forall k :: 0 < k < |vs| ==> Follows(vs[k - 1], vs[k].service, vs[k].now))
  }

  lemma VisitsSnoc(vs: seq<Visit>, v: Visit)
    requires Visits(vs) && v.now <= v.at
    requires |vs| > 0 ==> Follows(vs[|vs| - 1], v.service, v.now)
    ensures Visits(vs + [v])
  {
  }

  /** After a write the row says when, and no later write makes that earlier. */
  lemma {:induction false} ScaledSince(vs: seq<Visit>, i: nat, j: nat)
    requires Visits(vs) && i < j < |vs| && Writes(vs[i])
    ensures vs[j].service.lastScaledAt.Some?
    ensures vs[i].at <= vs[j].service.lastScaledAt.value <= vs[j].now
  {
    assert Follows(vs[j - 1], vs[j].service, vs[j].now);
    if i < j - 1 {
      ScaledSince(vs, i, j - 1);
    }
  }

  /** Two writes are separated by the cooldown that belongs to the direction of the later one. */
  lemma WritesAreSeparated(vs: seq<Visit>, i: nat, j: nat)
    requires Visits(vs) && i < j < |vs| && Writes(vs[i]) && Writes(vs[j])
    ensures vs[j].at - vs[i].at >= 1_000_000_000 *
      (if After(vs[j]).desiredReplicas > vs[j].service.desiredReplicas
       then vs[j].service.autoscaling.scaleUpCooldown else vs[j].service.autoscaling.scaleDownCooldown)
  {
    ScaledSince(vs, i, j);
    ProposalMovesTowardsGoal(vs[j].service, vs[j].running, vs[j].total, vs[j].now);
  }

  /** The number of writes among visits `i` to `j - 1`. */
  ghost function Scalings(vs: seq<Visit>, i: nat, j: nat): nat
    requires i <= j <= |vs|
  {
    if i == j then 0 else Scalings(vs, i, j - 1) + (if Writes(vs[j - 1]) then 1 else 0)
  }

  /** Steps of at most `step` and cooldowns of at least `cool` in every visit from `i` on. */
  ghost predicate Limited(vs: seq<Visit>, i: nat, step: nat, cool: int) {
    forall k :: i <= k < |vs| ==>
      && vs[k].service.autoscaling.maxScaleStep <= step
      && cool <= SECOND * vs[k].service.autoscaling.scaleUpCooldown
      && cool <= SECOND * vs[k].service.autoscaling.scaleDownCooldown
  }

  /** What one visit may do to the count, and when. */
  lemma VisitMoves(v: Visit, step: nat, cool: int)
    requires v.service.autoscaling.maxScaleStep <= step
    requires cool <= SECOND * v.service.autoscaling.scaleUpCooldown
    requires cool <= SECOND * v.service.autoscaling.scaleDownCooldown
    ensures !Writes(v) ==> After(v) == v.service
    ensures Writes(v) ==> Distance(After(v).desiredReplicas, v.service.desiredReplicas) <= step
    ensures Writes(v) ==> After(v).lastScaledAt == Some(v.at)
    ensures Writes(v) && v.service.lastScaledAt.Some? ==> v.now - v.service.lastScaledAt.value >= cool
  {
    if Writes(v) {
      ProposalMovesTowardsGoal(v.service, v.running, v.total, v.now);
    }
  }

  lemma OneMore(x: int, k: int)
    ensures x * (k + 1) == x * k + x
  {
  }

  lemma {:induction false} ScalingsMove(vs: seq<Visit>, i: nat, j: nat, step: nat, cool: int)
    requires Visits(vs) && i <= j < |vs| && Limited(vs, i, step, cool)
    ensures Distance(After(vs[j]).desiredReplicas, vs[i].service.desiredReplicas) <= step * Scalings(vs, i, j + 1)
    decreases j
  {
    hide Writes, After;
    VisitMoves(vs[j], step, cool);
    OneMore(step, Scalings(vs, i, j));
    if i < j {
      ScalingsMove(vs, i, j - 1, step, cool);
      assert Follows(vs[j - 1], vs[j].service, vs[j].now);
    }
  }

  lemma {:induction false} ScalingsTakeTime(vs: seq<Visit>, i: nat, j: nat, step: nat, cool: pos)
    requires Visits(vs) && i <= j < |vs| && Limited(vs, i, step, cool)
    ensures vs[i].at <= vs[j].at
    ensures Scalings(vs, i, j + 1) > 0 ==>
      && After(vs[j]).lastScaledAt.Some?
      && cool * (Scalings(vs, i, j + 1) - 1) <= After(vs[j]).lastScaledAt.value - vs[i].at
      && After(vs[j]).lastScaledAt.value <= vs[j].at
    decreases j
  {
    hide Writes, After;
    var before: int := Scalings(vs, i, j);
    VisitMoves(vs[j], step, cool);
    assert vs[j].now <= vs[j].at;
    if i < j {
      ScalingsTakeTime(vs, i, j - 1, step, cool);
      assert Follows(vs[j - 1], vs[j].service, vs[j].now);
      OneMore(cool, before - 1);
    } else {
      assert before == 0;
    }
    if Writes(vs[j]) {
      assert Scalings(vs, i, j + 1) == before + 1;
      assert After(vs[j]).lastScaledAt == Some(vs[j].at);
    } else {
      assert Scalings(vs, i, j + 1) == before;
      assert After(vs[j]) == vs[j].service;
    }
  }

  /**
    The rate limit: in any window of visits spanning time `T` the replica count moves by at most
    `step * (T / cool + 1)`.
   */
  lemma RateIsBounded(vs: seq<Visit>, i: nat, j: nat, step: nat, cool: pos)
    requires Visits(vs) && i <= j < |vs| && Limited(vs, i, step, cool)
    ensures vs[i].at <= vs[j].at
    ensures Distance(After(vs[j]).desiredReplicas, vs[i].service.desiredReplicas)
         <= step * ((vs[j].at - vs[i].at) / cool + 1)
  {
    hide Visits, Limited, After, Scalings;
    ScalingsMove(vs, i, j, step, cool);
    ScalingsTakeTime(vs, i, j, step, cool);
    SpreadOut(step, cool, Scalings(vs, i, j + 1), vs[j].at - vs[i].at);
  }

  /** `n` moves of at most `step`, `cool` apart, within `span`. */
  lemma SpreadOut(step: nat, cool: pos, n: nat, span: nat)
    requires n > 0 ==> cool * (n - 1) <= span
    ensures step * n <= step * (span / cool + 1)
  {
    if n > 0 {
      QuotientAtLeast(span, cool, n - 1);
    }
    MultiplyKeepsOrder(n, span / cool + 1, step);
  }

  lemma QuotientAtLeast(x: nat, cool: pos, n: nat)
    requires cool * n <= x
    ensures n <= x / cool
  {
    assert x < cool * (x / cool + 1);
    if x / cool + 1 <= n {
      MultiplyKeepsOrder(x / cool + 1, n, cool);
    }
  }
}
