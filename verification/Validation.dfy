/**
  The checks at the API, what they guarantee of the rows that are stored, and what later updates can undo.

  Text is only asked whether it is blank, and compared.
 */
module Validation {
  import opened Model
  import opened Tables
  import opened Ledger
  import opened Services
  import opened Replicas
  import opened Policy
  import opened Rollout

  datatype Text = Blank | Text(value: nat)

  datatype CreateRequest = CreateRequest(
    id: Text, name: Text, image: Text,
    replicas: int, desiredReplicas: int, cpu: int, memory: int, version: int,
    maxSurge: int, maxUnavailable: int,
    deployment: Option<DeploymentStatus>, status: Option<ServiceStatus>,
    autoscaling: Option<AutoscalingConfig>, flat: AutoscalingConfig)

  datatype Complaint =
    | IdRequired | NameRequired | ImageRequired | NegativeReplicas | CpuRequired | MemoryRequired
    | NegativeSurge | NegativeUnavailable | NoRoomToRollOut
    | MinBelowOne | MaxBelowMin | TargetOutOfRange | NegativeUpCooldown | NegativeDownCooldown
    | TooFewObservations | StepTooSmall

  // ---- Normalising and checking ----

  predicate Mentioned(a: AutoscalingConfig) {
    a.enabled || a.minReplicas > 0 || a.maxReplicas > 0 || a.targetCpu > 0.0 ||
    a.scaleUpCooldown > 0 || a.scaleDownCooldown > 0 || a.requiredObservations > 0 || a.maxScaleStep > 0
  }

  function Normalize(r: CreateRequest): CreateRequest {
    var r1 := if r.replicas == 0 && r.desiredReplicas > 0 then r.(replicas := r.desiredReplicas) else r;
    var r2 := if r1.autoscaling.None? && Mentioned(r1.flat) then r1.(autoscaling := Some(r1.flat)) else r1;
    if r2.version == 0 then r2.(version := 1) else r2
  }

  function EffectiveReplicas(r: CreateRequest): int {
    if r.replicas > 0 then r.replicas else r.desiredReplicas
  }

  function ValidateAutoscaling(a: AutoscalingConfig): Option<Complaint> {
    if !a.enabled then None
    else if a.minReplicas < 1 then Some(MinBelowOne)
    else if a.maxReplicas < a.minReplicas then Some(MaxBelowMin)
    else if a.targetCpu <= 0.0 || a.targetCpu > 100.0 then Some(TargetOutOfRange)
    else if a.scaleUpCooldown < 0 then Some(NegativeUpCooldown)
    else if a.scaleDownCooldown < 0 then Some(NegativeDownCooldown)
    else if a.requiredObservations < 1 then Some(TooFewObservations)
    else if a.maxScaleStep < 1 then Some(StepTooSmall)
    else None
  }

  function ValidateServiceRequest(r: CreateRequest): Option<Complaint> {
    if r.id.Blank? then Some(IdRequired)
    else if r.name.Blank? then Some(NameRequired)
    else if r.image.Blank? then Some(ImageRequired)
    else if EffectiveReplicas(r) < 0 then Some(NegativeReplicas)
    else if r.cpu <= 0 then Some(CpuRequired)
    else if r.memory <= 0 then Some(MemoryRequired)
    else if r.maxSurge < 0 then Some(NegativeSurge)
    else if r.maxUnavailable < 0 then Some(NegativeUnavailable)
    else if r.maxSurge == 0 && r.maxUnavailable == 0 && EffectiveReplicas(r) > 0 then Some(NoRoomToRollOut)
    else if r.autoscaling.Some? then ValidateAutoscaling(r.autoscaling.value)
    else None
  }

  /** One check of a request, and what is said if it fails. */
  datatype Check = Check(ok: bool, complaint: Complaint)

  /** The checks of the request itself, in the order in which they are made. */
  function RequestChecks(r: CreateRequest): seq<Check> {
    [ Check(r.id != Blank, IdRequired), Check(r.name != Blank, NameRequired), Check(r.image != Blank, ImageRequired),
      Check(r.replicas > 0 || r.desiredReplicas >= 0, NegativeReplicas),
      Check(r.cpu > 0, CpuRequired), Check(r.memory > 0, MemoryRequired),
      Check(r.maxSurge >= 0, NegativeSurge), Check(r.maxUnavailable >= 0, NegativeUnavailable),
      Check(r.maxSurge != 0 || r.maxUnavailable != 0 || (r.replicas <= 0 && r.desiredReplicas <= 0), NoRoomToRollOut) ]
  }

  /** The checks of enabled autoscaling settings. */
  function AutoscalingChecks(a: AutoscalingConfig): seq<Check> {
    [ Check(a.minReplicas >= 1, MinBelowOne), Check(a.maxReplicas >= a.minReplicas, MaxBelowMin),
      Check(0.0 < a.targetCpu <= 100.0, TargetOutOfRange),
      Check(a.scaleUpCooldown >= 0, NegativeUpCooldown), Check(a.scaleDownCooldown >= 0, NegativeDownCooldown),
      Check(a.requiredObservations >= 1, TooFewObservations), Check(a.maxScaleStep >= 1, StepTooSmall) ]
  }

  /** `c` is what is said of the first check that fails; nothing is said if none does. */
  ghost predicate FirstFailed(checks: seq<Check>, c: Option<Complaint>) {
    if c == None then forall i :: 0 <= i < |checks| ==> checks[i].ok
    else exists k :: FailsFirst(checks, k) && checks[k].complaint == c.value
  }

  predicate FailsFirst(checks: seq<Check>, k: int) {
    0 <= k < |checks| && !checks[k].ok && forall i :: 0 <= i < k ==> checks[i].ok
  }

  lemma AutoscalingComplaintIsFirst(a: AutoscalingConfig)
    requires a.enabled
    ensures FirstFailed(AutoscalingChecks(a), ValidateAutoscaling(a))
  {
    var checks := AutoscalingChecks(a);
    var k := if a.minReplicas < 1 then 0 else if a.maxReplicas < a.minReplicas then 1
             else if a.targetCpu <= 0.0 || a.targetCpu > 100.0 then 2 else if a.scaleUpCooldown < 0 then 3
             else if a.scaleDownCooldown < 0 then 4 else if a.requiredObservations < 1 then 5 else 6;
    if ValidateAutoscaling(a).Some? {
      assert FailsFirst(checks, k);
    }
  }

  /**
    The complaint is that of the first check that fails, those of enabled autoscaling settings coming last; and a
    request that passes them all is not complained about.
   */
  lemma ComplaintIsFirst(r: CreateRequest)
    ensures var a, c := r.autoscaling, ValidateServiceRequest(r);
      if FirstFailed(RequestChecks(r), None) && a.Some? && a.value.enabled
      then FirstFailed(AutoscalingChecks(a.value), c)
      else FirstFailed(RequestChecks(r), c)
  {
    var checks := RequestChecks(r);
    var k := if r.id.Blank? then 0 else if r.name.Blank? then 1 else if r.image.Blank? then 2
             else if r.replicas <= 0 && r.desiredReplicas < 0 then 3 else if r.cpu <= 0 then 4
             else if r.memory <= 0 then 5 else if r.maxSurge < 0 then 6 else if r.maxUnavailable < 0 then 7 else 8;
    if checks[8].ok && k == 8 {
      assert forall i :: 0 <= i < |checks| ==> checks[i].ok;
      if r.autoscaling.Some? && r.autoscaling.value.enabled {
        AutoscalingComplaintIsFirst(r.autoscaling.value);
      }
    } else {
      assert FailsFirst(checks, k);
    }
  }

  const NO_AUTOSCALING := AutoscalingConfig(false, 0, 0, 0.0, 0, 0, 0, 0)

  /** The row a create request stores, if it passes. */
  function Admit(request: CreateRequest, now: int): Option<Service> {
    var r := Normalize(request);
    if ValidateServiceRequest(r).Some? then None
    else Some(Service(
      r.id.value, r.image.value, EffectiveReplicas(r), r.cpu, r.memory, r.version, r.maxSurge, r.maxUnavailable,
      if r.deployment.Some? then r.deployment.value else Available, None,
      if r.autoscaling.Some? then r.autoscaling.value else NO_AUTOSCALING, None,
      if r.status.Some? then r.status.value else Active, now))
  }

  predicate Sane(a: AutoscalingConfig) {
    a.enabled ==>
      && 1 <= a.minReplicas <= a.maxReplicas && 0.0 < a.targetCpu <= 100.0
      && a.scaleUpCooldown >= 0 && a.scaleDownCooldown >= 0 && a.requiredObservations >= 1 && a.maxScaleStep >= 1
  }

  /**
    Which requests are accepted, in the requester's terms. Settings in the old flat form are checked like the
    nested ones; a negative replica count passes if the other replica field is not negative.
   */
  lemma AdmitsExactly(r: CreateRequest, now: int)
    ensures Admit(r, now).Some? <==>
      && r.id.Text? && r.name.Text? && r.image.Text? && r.cpu > 0 && r.memory > 0
      && (r.replicas > 0 || r.desiredReplicas >= 0)
      && r.maxSurge >= 0 && r.maxUnavailable >= 0
      && (r.maxSurge + r.maxUnavailable >= 1 || (r.replicas <= 0 && r.desiredReplicas == 0))
      && Sane(if r.autoscaling.Some? then r.autoscaling.value else r.flat)
    ensures Admit(r, now).Some? ==> Sane(Admit(r, now).value.autoscaling) && Admit(r, now).value.version != 0
  {
    var n := Normalize(r);
    assert EffectiveReplicas(n) == EffectiveReplicas(r);
    assert r.autoscaling.None? && n.autoscaling.None? ==> !r.flat.enabled;
  }

  /** Nothing is said in the old flat form of the autoscaling settings. */
  predicate LeftBlank(f: AutoscalingConfig) {
    && !f.enabled && f.minReplicas <= 0 && f.maxReplicas <= 0 && f.targetCpu <= 0.0 && f.maxScaleStep <= 0
    && f.scaleUpCooldown <= 0 && f.scaleDownCooldown <= 0 && f.requiredObservations <= 0
  }

  lemma BlankIsUnmentioned(f: AutoscalingConfig)
    ensures LeftBlank(f) <==> !Mentioned(f)
  {
  }

  /** The row that is stored for an accepted request, column by column. */
  lemma AdmitsColumns(r: CreateRequest, now: int)
    requires Admit(r, now).Some?
    ensures r.id.Text? && r.image.Text? && r.cpu > 0 && r.memory > 0 && (r.replicas > 0 || r.desiredReplicas >= 0)
    ensures Admit(r, now).value == Service(
      r.id.value, r.image.value, if r.replicas > 0 then r.replicas else r.desiredReplicas, r.cpu, r.memory,
      if r.version == 0 then 1 else r.version, r.maxSurge, r.maxUnavailable,
      if r.deployment.Some? then r.deployment.value else Available, None,
      if r.autoscaling.Some? then r.autoscaling.value
      else if LeftBlank(r.flat) then AutoscalingConfig(false, 0, 0, 0.0, 0, 0, 0, 0) else r.flat,
      None, if r.status.Some? then r.status.value else Active, now)
  {
    BlankIsUnmentioned(r.flat);
    hide LeftBlank, Mentioned;
  }

  // ---- Edits of a stored row ----

  datatype UpdateRequest = UpdateRequest(
    image: Image, replicas: int, cpu: int, memory: int, maxSurge: int, maxUnavailable: int)

  datatype Edit = Update(request: UpdateRequest, now: int) | Scale(replicas: nat, at: int)

  /** An update is checked for its replicas and requests only, and its limits never reach the row. */
  function Edited(s: Service, e: Edit): Service {
    match e
    case Update(r, now) =>
      if r.replicas < 0 || r.cpu <= 0 || r.memory <= 0 then s
      else WithSpec(s, r.image, r.replicas, r.cpu, r.memory, now)
    case Scale(replicas, at) => WithReplicas(s, replicas, at)
  }

  function EditedAll(s: Service, es: seq<Edit>): Service {
    if |es| == 0 then s else Edited(EditedAll(s, es[..|es| - 1]), es[|es| - 1])
  }

  /** An update with legal columns sets four of them, and starts a version with a new image; any other does nothing. */
  lemma EditWrites(s: Service, u: UpdateRequest, now: int, replicas: nat, at: int)
    ensures var same := u.image == s.image;
      Edited(s, Update(u, now)) ==
        if u.replicas >= 0 && u.cpu >= 1 && u.memory >= 1
        then s.(image := u.image, desiredReplicas := u.replicas, cpu := u.cpu, memory := u.memory,
                version := if same then s.version else s.version + 1,
                deployment := if same then s.deployment else Progressing,
                startedAt := if same then s.startedAt else Some(now))
        else s
    ensures Edited(s, Scale(replicas, at)) == s.(desiredReplicas := replicas, lastScaledAt := Some(at))
  {
  }

  /** No edit changes the limits or the autoscaling settings, and versions never go back. */
  lemma {:induction false} EditsKeepLimits(s: Service, es: seq<Edit>)
    ensures var t := EditedAll(s, es);
      && t.id == s.id && t.maxSurge == s.maxSurge && t.maxUnavailable == s.maxUnavailable
      && t.autoscaling == s.autoscaling && t.version >= s.version
  {
    if |es| > 0 {
      EditsKeepLimits(s, es[..|es| - 1]);
    }
  }

  // ---- Rollouts of admitted services ----

  /** A rollout is due and nothing is in its way: older workloads are left, all active ones run, none failed. */
  ghost predicate RolloutDue(s: Service, rows: Rows, ws: seq<Workload>) {
    && Keyed(rows) && Lists(ws, rows, s.id) && NoneNewer(rows, s)
    && !s.deployment.DeploymentFailed? && Census(rows, s.id, FailedAt(s.version)) == 0
    && OldCount(rows, s) > 0 && Settled(rows, s)
  }

  /**
    The check against zero surge and zero slack is made at creation only. After every sequence of edits the
    deployment controller acts whenever a rollout is due, if and only if the service was created with some
    surge or slack: created with neither (and so with no replicas), accepted updates take it out of the
    check's reach.
   */
  lemma CheckHoldsForGoodIff(r: CreateRequest, now: int)
    requires Admit(r, now).Some?
    ensures (forall es, rows, ws :: RolloutDue(EditedAll(Admit(r, now).value, es), rows, ws) ==>
               !NextAction(EditedAll(Admit(r, now).value, es), ws).Idle?)
      <==> r.maxSurge + r.maxUnavailable >= 1
  {
    hide RolloutDue, NextAction;
    var s := Admit(r, now).value;
    if r.maxSurge + r.maxUnavailable >= 1 {
      forall es, rows, ws | RolloutDue(EditedAll(s, es), rows, ws) ensures !NextAction(EditedAll(s, es), ws).Idle? {
        EditsKeepLimits(s, es);
        DueIsDone(EditedAll(s, es), rows, ws);
      }
    } else {
      var stuck := EditedAll(s, GapEdits(s, s.image + 1, 0, 0));
      GapRows(s, s.image + 1, 0, 0);
      var ws := [Lonely(s)];
      IdleOnLonely(s, stuck);
      assert RolloutDue(stuck, map[0 := Lonely(s)], ws);
    }
  }

  lemma DueIsDone(s: Service, rows: Rows, ws: seq<Workload>)
    requires RolloutDue(s, rows, ws) && s.maxSurge + s.maxUnavailable >= 1
    ensures !NextAction(s, ws).Idle?
  {
    StuckExactly(rows, s, ws);
  }

  /** The one replica of a service, running on node 0. */
  function Lonely(s: Service): Workload {
    Workload(0, s.id, Some(0), Some(0), s.image, 1, 1, s.version, Scheduled, Running, true)
  }

  /** The first update gives the service its first replica, the second changes the image. */
  function GapEdits(s: Service, image: Image, surge: int, slack: int): seq<Edit> {
    [Update(UpdateRequest(s.image, 1, 1, 1, surge, slack), 0), Update(UpdateRequest(image, 1, 1, 1, surge, slack), 0)]
  }

  /** The row after the first update. */
  function Grown(s: Service): Service {
    WithSpec(s, s.image, 1, 1, 1, 0)
  }

  lemma GapRows(s: Service, image: Image, surge: int, slack: int)
    ensures var es := GapEdits(s, image, surge, slack);
      EditedAll(s, es[..1]) == Grown(s) && EditedAll(s, es) == WithSpec(Grown(s), image, 1, 1, 1, 0)
  {
    var es := GapEdits(s, image, surge, slack);
    assert es[..2] == es && es[..2][..1] == es[..1] && es[..1][..0] == [];
    assert EditedAll(s, []) == s;
  }

  lemma IdleOnLonely(s: Service, stuck: Service)
    requires stuck.id == s.id && stuck.version > s.version && stuck.desiredReplicas == 1
    requires stuck.maxSurge == 0 && stuck.maxUnavailable == 0 && !stuck.deployment.DeploymentFailed?
    ensures RolloutDue(stuck, map[0 := Lonely(s)], [Lonely(s)]) && NextAction(stuck, [Lonely(s)]).Idle?
    ensures ActiveCount(map[0 := Lonely(s)], stuck) == 1
  {
    var rows, ws := map[0 := Lonely(s)], [Lonely(s)];
    assert Members(rows, s.id, AnyActive) == Members(rows, s.id, OldActive(stuck.version)) == {0};
    assert Members(rows, s.id, RunningActive) == {0} && Members(rows, s.id, FailedAt(stuck.version)) == {};
    assert rows[0] in ws;
    StuckExactly(rows, stuck, ws);
  }

  // ---- Reaching the gap ----

  function OneNode(): NodeRows {
    map[0 := Node(1, 1, 0, 0, Ready)]
  }

  /**
    A rollout that never moves is reached from an empty cluster by accepted requests and the controllers' own
    transactions: after a first update the replica controller creates the service's first workload, which is
    placed and starts, and a second update changes the image. From then on every call of the deployment
    controller is a no-op, whatever surge or slack the updates asked for.
   */
  lemma GapLeadsToStuckRollout(r: CreateRequest, now: int, image: Image, surge: int, slack: int)
    returns (created: Service, started: Rows, es: seq<Event>, end: Cluster)
    requires Admit(r, now).Some? && r.maxSurge == 0 && r.maxUnavailable == 0 && Text(image) != r.image
    requires Steers(Admit(r, now).value)
    ensures created == Admit(r, now).value
    ensures var grown := EditedAll(created, GapEdits(created, image, surge, slack)[..1]);
      ReplicaMove(grown, [], map[], started)
    ensures LawfulRun(Cluster(OneNode(), started), es) && end == Run(Cluster(OneNode(), started), es)
    ensures var stuck := EditedAll(created, GapEdits(created, image, surge, slack));
      && stuck.version == created.version + 1 && OldCount(end.workloads, stuck) == 1
      && forall a, after :: DeployMove(stuck, a, end.workloads, after) ==> after == end.workloads
  {
    created := Admit(r, now).value;
    GapRows(created, image, surge, slack);
    var grown := Grown(created);
    started := map[0 := PendingRow(grown, 0)];
    FirstReplica(grown, started);
    es, end := LonelyStarts(created, started);
    var stuck := EditedAll(created, GapEdits(created, image, surge, slack));
    GapIsStuck(created, stuck, end.workloads);
  }

  lemma LonelyStarts(s: Service, started: Rows) returns (es: seq<Event>, end: Cluster)
    requires started == map[0 := PendingRow(Grown(s), 0)]
    ensures LawfulRun(Cluster(OneNode(), started), es) && end == Run(Cluster(OneNode(), started), es)
    ensures end.workloads == map[0 := Lonely(s)]
  {
    var start := Cluster(OneNode(), started);
    es, end := [], start;
    assert LawfulRun(start, es) && end == Run(start, es);
    hide Run, LawfulRun;
    es, end := Then(start, es, end, Reserve(0, 0, 1, 1));
    es, end := Then(start, es, end, MarkRunning(0, 0));
    assert end.workloads == map[0 := Lonely(s)];
  }

  lemma GapIsStuck(s: Service, stuck: Service, rows: Rows)
    requires rows == map[0 := Lonely(s)]
    requires stuck.id == s.id && stuck.version > s.version && stuck.desiredReplicas == 1
    requires stuck.maxSurge == 0 && stuck.maxUnavailable == 0 && !stuck.deployment.DeploymentFailed?
    ensures OldCount(rows, stuck) == 1
    ensures forall a, after :: DeployMove(stuck, a, rows, after) ==> after == rows
  {
    IdleOnLonely(s, stuck);
    assert Members(rows, stuck.id, OldActive(stuck.version)) == {0};
    hide DeployMove, Members, Settled;
    forall a, after | DeployMove(stuck, a, rows, after) ensures after == rows {
      StuckForGood(rows, stuck, a, after);
    }
  }

  lemma FirstReplica(s: Service, started: Rows)
    requires Steers(s) && s.desiredReplicas == 1 && started == map[0 := PendingRow(s, 0)]
    ensures ReplicaMove(s, [], map[], started)
  {
    assert Members(map[], s.id, ReplicaActive(s.version)) == {} == Members(map[], s.id, OldActive(s.version));
  }

  // ---- Autoscaling of admitted services ----

  /**
    For an admitted service with autoscaling the hypotheses of the policy hold for good: the goal `g` is
    permitted, proposals lie in the permitted range or on the way there, and an active service that is not
    rolling out gets none only if it is at its goal or cooling down.
   */
  lemma AdmittedAutoscales(r: CreateRequest, created: int, es: seq<Edit>, s: Service,
                           running: nat, total: int, now: int, g: int)
    requires Admit(r, created).Some? && s.autoscaling == EditedAll(Admit(r, created).value, es).autoscaling
    requires s.status == Active && s.deployment != Progressing && s.autoscaling.enabled && running > 0
    requires IsGoal(s, total, g)
    ensures s.autoscaling.minReplicas <= g <= s.autoscaling.maxReplicas
    ensures var p, config, d := Proposal(s, running, total, now), s.autoscaling, s.desiredReplicas;
      var wait := 1_000_000_000 * (if g > d then config.scaleUpCooldown else config.scaleDownCooldown);
      && (p.Some? ==> Min(d, config.minReplicas) <= p.value <= Max(d, config.maxReplicas))
      && (p.None? <==> g == d || (s.lastScaledAt.Some? && now - s.lastScaledAt.value < wait))
  {
    EditsKeepLimits(Admit(r, created).value, es);
    ProposalExactly(s, running, total, now, g);
  }
}
