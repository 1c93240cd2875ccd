/**
  The service table: its statements, and what one service and its workloads go through while a reconcile
  cycle works on a copy of the row that updates may overtake.
 */
module Services {
  import opened Model
  import opened Tables

  type ServiceRows = map<ServiceId, Service>

  // ---- Statements ----

  /** `UpdateService`: limits are not among the columns it sets; only a different image starts a rollout. */
  function WithSpec(s: Service, image: Image, replicas: nat, cpu: pos, memory: pos, now: int): Service {
    var t := s.(image := image, desiredReplicas := replicas, cpu := cpu, memory := memory);
    if image == s.image then t
    else t.(version := s.version + 1, deployment := Progressing, startedAt := Some(now))
  }

  function WithDeployment(s: Service, status: DeploymentStatus): Service {
    s.(deployment := status)
  }

  /** `UpdateDesiredReplicas`, which only the autoscaler calls. */
  function WithReplicas(s: Service, replicas: nat, now: int): Service {
    s.(desiredReplicas := replicas, lastScaledAt := Some(now))
  }

  function WithDeleting(s: Service): Service {
    if s.status.Active? then s.(status := Deleting) else s
  }

  function WithDeleted(s: Service): Service {
    if s.status.Deleting? then s.(status := Deleted) else s
  }

  /** An update sets four columns; a different image also starts the next version. Nothing else is touched. */
  lemma SpecWrites(s: Service, image: Image, replicas: nat, cpu: pos, memory: pos, now: int)
    ensures WithSpec(s, image, replicas, cpu, memory, now) ==
      Service(s.id, image, replicas, cpu, memory,
        if image == s.image then s.version else s.version + 1, s.maxSurge, s.maxUnavailable,
        if image == s.image then s.deployment else Progressing, if image == s.image then s.startedAt else Some(now),
        s.autoscaling, s.lastScaledAt, s.status, s.createdAt)
  {
  }

  lemma ColumnsWrite(s: Service, d: DeploymentStatus, replicas: nat, now: int)
    ensures WithDeployment(s, d) ==
      Service(s.id, s.image, s.desiredReplicas, s.cpu, s.memory, s.version, s.maxSurge, s.maxUnavailable,
        d, s.startedAt, s.autoscaling, s.lastScaledAt, s.status, s.createdAt)
    ensures WithReplicas(s, replicas, now) ==
      Service(s.id, s.image, replicas, s.cpu, s.memory, s.version, s.maxSurge, s.maxUnavailable,
        s.deployment, s.startedAt, s.autoscaling, Some(now), s.status, s.createdAt)
  {
  }

  /** Only an active service starts to be deleted, and only one being deleted becomes deleted. */
  lemma StatusWrites(s: Service)
    ensures WithDeleting(s) == s.(status := if s.status == Active then Deleting else s.status)
    ensures WithDeleted(s) == s.(status := if s.status == Deleting then Deleted else s.status)
  {
  }

  // ---- What the controllers read off the workloads ----

  ghost predicate AllFinished(rows: Rows, s: ServiceId) {
    forall id :: id in rows && rows[id].service == s ==> !InUse(rows[id].actual)
  }

  /** The rollout is complete: the desired number runs on the service's version, and nothing older is active. */
  ghost predicate RolledOut(s: Service, rows: Rows) {
    Census(rows, s.id, RunningAt(s.version)) == s.desiredReplicas && Census(rows, s.id, OldActive(s.version)) == 0
  }

  predicate TimedOut(s: Service, now: int, timeout: int) {
    s.startedAt.Some? && now - s.startedAt.value > timeout
  }

  /** What the status controller writes, if anything. */
  ghost function StatusVerdict(s: Service, rows: Rows, now: int, timeout: int): Option<DeploymentStatus> {
    if s.deployment.DeploymentFailed? then None
    else if RolledOut(s, rows) then Some(Available)
    else if Census(rows, s.id, FailedAt(s.version)) > 0 || TimedOut(s, now, timeout) then Some(DeploymentFailed)
    else Some(Progressing)
  }

  /**
    The verdict in terms of columns: available when as many workloads of the current version run as are desired
    and nothing older is active; otherwise failed when one of that version failed or the rollout has taken longer
    than the timeout; otherwise progressing. A failed deployment gets no verdict.
   */
  lemma VerdictExactly(s: Service, rows: Rows, now: int, timeout: int)
    ensures var running := set id | id in rows && rows[id].service == s.id &&
                                    rows[id].version == s.version && rows[id].actual == Running;
            var older := set id | id in rows && rows[id].service == s.id && rows[id].version < s.version &&
                                  rows[id].actual in {Pending, Scheduled, Running} && rows[id].desired != Stopped;
            var failed := set id | id in rows && rows[id].service == s.id &&
                                   rows[id].version == s.version && rows[id].actual == Failed;
      StatusVerdict(s, rows, now, timeout) ==
        if s.deployment == DeploymentFailed then None
        else if |running| == s.desiredReplicas && older == {} then Some(Available)
        else if failed != {} || (s.startedAt.Some? && s.startedAt.value + timeout < now) then Some(DeploymentFailed)
        else Some(Progressing)
  {
    var running := set id | id in rows && rows[id].service == s.id &&
                            rows[id].version == s.version && rows[id].actual == Running;
    var older := set id | id in rows && rows[id].service == s.id && rows[id].version < s.version &&
                          rows[id].actual in {Pending, Scheduled, Running} && rows[id].desired != Stopped;
    var failed := set id | id in rows && rows[id].service == s.id &&
                           rows[id].version == s.version && rows[id].actual == Failed;
    assert Members(rows, s.id, RunningAt(s.version)) == running;
    assert Members(rows, s.id, OldActive(s.version)) == older;
    assert Members(rows, s.id, FailedAt(s.version)) == failed;
  }

  // ---- One service under a cycle's copy ----

  /** `open`: the cycle has read `snapshot` and has not yet reached its last write for the service. */
  datatype World = World(current: Service, snapshot: Service, open: bool, rows: Rows)

  datatype Tick =
    | UpdateSpec(image: Image, replicas: nat, cpu: pos, memory: pos, now: int)
    | Rescale(replicas: nat, now: int)
    | StartDelete
    | BeginCycle
    | Insert(id: WorkloadId)
    | Mark(id: WorkloadId)
    | Verdict(now: int, timeout: int)
    | EndDelete
    | Touch(id: WorkloadId, row: Workload)

  /** Whether the controllers, which look at the copy, may act on the workloads of the service. */
  predicate Steers(s: Service) {
    s.status.Active? && !s.deployment.DeploymentFailed?
  }

  ghost predicate Enabled(w: World, t: Tick) {
    match t
    case Insert(id) => w.open && Steers(w.snapshot) && id !in w.rows
    case Mark(id) => w.open && id in w.rows && (Steers(w.snapshot) || w.snapshot.status.Deleting?)
    case Verdict(_, _) => w.open && Steers(w.snapshot)
    case EndDelete => w.open && w.snapshot.status.Deleting? && AllFinished(w.rows, w.snapshot.id)
    case Touch(id, row) =>
      id in w.rows && row.service == w.rows[id].service &&
      row.version == w.rows[id].version && row.image == w.rows[id].image &&
      (row.desired.Stopped? ==> w.rows[id].desired.Stopped?)
    case _ => true
  }

  ghost function Advance(w: World, t: Tick): World {
    match t
    case UpdateSpec(image, replicas, cpu, memory, now) =>
      w.(current := WithSpec(w.current, image, replicas, cpu, memory, now))
    case Rescale(replicas, now) => w.(current := WithReplicas(w.current, replicas, now))
    case StartDelete => w.(current := WithDeleting(w.current))
    case BeginCycle => w.(snapshot := w.current, open := true)
    case Insert(id) => w.(rows := w.rows[id := PendingRow(w.snapshot, id)])
    case Mark(id) => if id in w.rows then w.(rows := w.rows[id := w.rows[id].(desired := Stopped)]) else w
    case Verdict(now, timeout) => Judged(w, StatusVerdict(w.snapshot, w.rows, now, timeout))
    case EndDelete => w.(current := WithDeleted(w.current), open := false)
    case Touch(id, row) => w.(rows := w.rows[id := row])
  }

  /** The verdict on the copy is written over the row. */
  function Judged(w: World, v: Option<DeploymentStatus>): World {
    w.(current := if v.Some? then WithDeployment(w.current, v.value) else w.current, open := false)
  }

  ghost function AdvanceAll(w: World, ts: seq<Tick>): World {
    if |ts| == 0 then w else Advance(AdvanceAll(w, ts[..|ts| - 1]), ts[|ts| - 1])
  }

  ghost predicate EnabledAll(w: World, ts: seq<Tick>) {
    |ts| == 0 || (EnabledAll(w, ts[..|ts| - 1]) && Enabled(AdvanceAll(w, ts[..|ts| - 1]), ts[|ts| - 1]))
  }

  function Rank(s: ServiceStatus): nat {
    match s case Active => 0 case Deleting => 1 case Deleted => 2
  }

  /** Equal versions have equal images, and versions grow from the rows over the copy to the service. */
  ghost predicate Coherent(w: World) {
    && w.snapshot.id == w.current.id
    && (forall id :: id in w.rows ==> w.rows[id].service == w.current.id)
    && w.snapshot.version <= w.current.version
    && (w.snapshot.version == w.current.version ==>
          w.snapshot.image == w.current.image && w.snapshot.startedAt == w.current.startedAt)
    && (forall id :: id in w.rows ==> w.rows[id].version <= w.snapshot.version)
    && (forall id :: id in w.rows && w.rows[id].version == w.snapshot.version ==> w.rows[id].image == w.snapshot.image)
    && (forall x, y :: x in w.rows && y in w.rows && w.rows[x].version == w.rows[y].version ==>
          w.rows[x].image == w.rows[y].image)
    && Rank(w.snapshot.status) <= Rank(w.current.status)
    && (w.open && w.current.deployment.DeploymentFailed? ==> w.snapshot.deployment.DeploymentFailed?)
  }

  lemma AdvanceCoherent(w: World, t: Tick)
    requires Coherent(w) && Enabled(w, t)
    ensures Coherent(Advance(w, t))
  {
    var after := Advance(w, t);
    assert after.current.image == after.snapshot.image || after.current.version != after.snapshot.version;
    forall id | id in after.rows ensures
      (id in w.rows && after.rows[id].version == w.rows[id].version && after.rows[id].image == w.rows[id].image) ||
      (after.rows[id].version == w.snapshot.version && after.rows[id].image == w.snapshot.image) {
    }
  }

  /**
    Over every interleaving of updates, scalings and deletions with cycles on older copies: workloads of equal
    version run equal images, and no workload is of a version the service has not reached.
   */
  lemma {:induction false} VersionsStayCoherent(w: World, ts: seq<Tick>)
    requires Coherent(w) && EnabledAll(w, ts)
    ensures Coherent(AdvanceAll(w, ts))
    ensures var end := AdvanceAll(w, ts);
      && (forall x, y :: x in end.rows && y in end.rows && end.rows[x].version == end.rows[y].version ==>
           end.rows[x].image == end.rows[y].image)
      && (forall x :: x in end.rows ==> end.rows[x].version <= end.current.version)
      && (forall x :: x in end.rows && end.rows[x].version == end.current.version ==>
            end.rows[x].image == end.current.image)
    decreases |ts|
  {
    if |ts| > 0 {
      VersionsStayCoherent(w, ts[..|ts| - 1]);
      AdvanceCoherent(AdvanceAll(w, ts[..|ts| - 1]), ts[|ts| - 1]);
    }
  }

  /** A service only moves from active over deleting to deleted, one step at a time. */
  lemma StatusOnlyMovesOn(w: World, t: Tick)
    ensures Rank(w.current.status) <= Rank(Advance(w, t).current.status)
    ensures Rank(Advance(w, t).current.status) <= Rank(w.current.status) + 1
    ensures Advance(w, t).current.status.Deleted? && !w.current.status.Deleted? ==>
      t.EndDelete? && w.current.status.Deleting?
  {
  }

  /** The last write of a deletion: everything has finished, and the service is still being deleted. */
  ghost predicate Finishes(w: World, t: Tick) {
    t.EndDelete? && w.current.status.Deleting? && AllFinished(w.rows, w.current.id)
  }

  lemma NewlyDeleted(w: World, t: Tick)
    requires Coherent(w) && Enabled(w, t) && !w.current.status.Deleted? && Advance(w, t).current.status.Deleted?
    ensures Finishes(w, t)
  {
  }

  /**
    Over every interleaving the status never goes back, and a service that became deleted was, at the moment
    that was written, being deleted and without a workload in use.
   */
  lemma {:induction false} DeletedOnceFinished(w: World, ts: seq<Tick>)
    requires Coherent(w) && EnabledAll(w, ts)
    ensures Rank(w.current.status) <= Rank(AdvanceAll(w, ts).current.status)
    ensures AdvanceAll(w, ts).current.status.Deleted? && !w.current.status.Deleted? ==>
      exists k :: 0 <= k < |ts| && Finishes(AdvanceAll(w, ts[..k]), ts[k])
    decreases |ts|
  {
    if |ts| > 0 {
      var init, last := ts[..|ts| - 1], ts[|ts| - 1];
      var before := AdvanceAll(w, init);
      DeletedOnceFinished(w, init);
      VersionsStayCoherent(w, init);
      StatusOnlyMovesOn(before, last);
      hide Advance, Enabled, Coherent, Finishes, Rank;
      if before.current.status.Deleted? && !w.current.status.Deleted? {
        var k :| 0 <= k < |init| && Finishes(AdvanceAll(w, init[..k]), init[k]);
        assert init[..k] == ts[..k];
        assert Finishes(AdvanceAll(w, ts[..k]), ts[k]);
      } else if Advance(before, last).current.status.Deleted? && !before.current.status.Deleted? {
        NewlyDeleted(before, last);
        assert Finishes(AdvanceAll(w, ts[..|ts| - 1]), ts[|ts| - 1]);
      }
    }
  }

  /** A step that may end a failed deployment: a different image, or the deletion of the service. */
  predicate Reopens(image: Image, t: Tick) {
    t.StartDelete? || (t.UpdateSpec? && t.image != image)
  }

  predicate Undisturbed(image: Image, ts: seq<Tick>) {
    forall t :: t in ts ==> !Reopens(image, t)
  }

  predicate NoneAbove(rows: Rows, version: int) {
    forall id :: id in rows ==> rows[id].version <= version
  }

  /** Of those steps, the different image is the one that ends the failure. */
  lemma FailureEndsByImage(w: World, t: Tick)
    requires Coherent(w) && Enabled(w, t)
    requires w.current.status.Active? && w.current.deployment.DeploymentFailed?
    ensures !Advance(w, t).current.deployment.DeploymentFailed? <==> t.UpdateSpec? && t.image != w.current.image
    ensures Advance(w, t).rows.Keys == w.rows.Keys
    ensures forall id :: id in w.rows && Advance(w, t).rows[id].desired.Stopped? ==> w.rows[id].desired.Stopped?
    ensures !Reopens(w.current.image, t) ==>
      Advance(w, t).current.status.Active? && Advance(w, t).current.image == w.current.image
  {
  }

  /**
    A failed deployment of an active service is final: over any run without a different image and without a
    deletion it stays failed, no workload is created, and none is newly asked to stop.
   */
  lemma {:induction false} FailureIsFinal(w: World, ts: seq<Tick>)
    requires Coherent(w) && EnabledAll(w, ts)
    requires w.current.status.Active? && w.current.deployment.DeploymentFailed?
    requires Undisturbed(w.current.image, ts)
    ensures var end := AdvanceAll(w, ts);
      && end.current.status.Active? && end.current.deployment.DeploymentFailed? && end.current.image == w.current.image
      && end.rows.Keys == w.rows.Keys
      && (forall id :: id in w.rows && end.rows[id].desired.Stopped? ==> w.rows[id].desired.Stopped?)
    decreases |ts|
  {
    if |ts| > 0 {
      var init, last := ts[..|ts| - 1], ts[|ts| - 1];
      FailureIsFinal(w, init);
      VersionsStayCoherent(w, init);
      assert last in ts;
      FailureEndsByImage(AdvanceAll(w, init), last);
    }
  }

  // ---- Verdicts that were overtaken ----

  /** A cycle reads the service, an update to another image overtakes it, and it writes its verdict. */
  function Overtaken(s: Service): seq<Tick> {
    [BeginCycle, UpdateSpec(s.image + 1, s.desiredReplicas, s.cpu, s.memory, 0), Verdict(0, 0)]
  }

  lemma OvertakenRun(w: World, s: Service)
    requires Coherent(w) && w.current == s && Steers(s)
    ensures var ts, v := Overtaken(s), StatusVerdict(s, w.rows, 0, 0);
      && EnabledAll(w, ts)
      && v.Some? && AdvanceAll(w, ts).rows == w.rows
      && AdvanceAll(w, ts).current ==
           WithDeployment(WithSpec(s, s.image + 1, s.desiredReplicas, s.cpu, s.memory, 0), v.value)
  {
    var ts := Overtaken(s);
    assert ts[..2][..1] == ts[..1] && ts[..1][..0] == [];
    assert AdvanceAll(w, []) == w && EnabledAll(w, []);
    assert AdvanceAll(w, ts[..1]) == Advance(w, ts[0]) && EnabledAll(w, ts[..1]);
    assert AdvanceAll(w, ts[..2]) == Advance(Advance(w, ts[0]), ts[1]) && EnabledAll(w, ts[..2]);
  }

  /** `n` running workloads of the service. */
  lemma {:induction false} Fleet(s: Service, n: nat) returns (rows: Rows)
    ensures Census(rows, s.id, RunningAt(s.version)) == n && Census(rows, s.id, OldActive(s.version)) == 0
    ensures forall id :: id in rows ==> id < n && rows[id] == PendingRow(s, id).(actual := Running)
  {
    rows := map[];
    if n > 0 {
      var fewer := Fleet(s, n - 1);
      var w := PendingRow(s, n - 1).(actual := Running);
      CensusAfterWrite(fewer, n - 1, w, s.id, RunningAt(s.version));
      CensusAfterWrite(fewer, n - 1, w, s.id, OldActive(s.version));
      rows := fewer[n - 1 := w];
    }
  }

  /**
    The status a cycle writes belongs to the version it read. When an update has overtaken the cycle, the new
    version is marked with it: here as available, though none of its workloads exists.
   */
  lemma VerdictMayHitNextVersion(s: Service) returns (w: World, ts: seq<Tick>)
    requires Steers(s)
    ensures w.current == s && Coherent(w) && EnabledAll(w, ts)
    ensures var end := AdvanceAll(w, ts);
      end.current.version == s.version + 1 && end.current.deployment.Available? &&
      forall id :: id in end.rows ==> end.rows[id].version < end.current.version
  {
    var rows := Fleet(s, s.desiredReplicas);
    w, ts := World(s, s, false, rows), Overtaken(s);
    OvertakenRun(w, s);
  }

  predicate JustStarted(s: Service) {
    s.desiredReplicas > 0 && s.deployment.Progressing? && s.startedAt == Some(0)
  }

  /** One failed workload: a verdict of failure on its version, and none on any later one that just started. */
  lemma OneFailed(s: Service) returns (rows: Rows)
    requires !s.deployment.DeploymentFailed? && s.desiredReplicas > 0
    ensures StatusVerdict(s, rows, 0, 0) == Some(DeploymentFailed)
    ensures Coherent(World(s, s, false, rows)) && NoneAbove(rows, s.version)
    ensures forall n: Service :: n.id == s.id && n.version > s.version && JustStarted(n) ==>
      StatusVerdict(n, rows, 0, 0) == Some(Progressing)
  {
    rows := map[0 := PendingRow(s, 0).(desired := Scheduled, actual := Failed)];
    assert Members(rows, s.id, RunningAt(s.version)) == {};
    assert 0 in Members(rows, s.id, FailedAt(s.version));
    forall n: Service | n.id == s.id && n.version > s.version
      ensures Census(rows, n.id, RunningAt(n.version)) == 0 == Census(rows, n.id, FailedAt(n.version))
    {
      assert Members(rows, n.id, RunningAt(n.version)) == {} == Members(rows, n.id, FailedAt(n.version));
    }
  }

  /**
    Worse, here the new version is marked as failed for the failure of the old one. It was started just now,
    none of its workloads exists, and by `FailureIsFinal` none ever will until the image changes again.
   */
  lemma StaleFailureEndsNextVersion(s: Service) returns (w: World, ts: seq<Tick>)
    requires Steers(s) && s.desiredReplicas > 0
    ensures w.current == s && Coherent(w) && EnabledAll(w, ts)
    ensures var end := AdvanceAll(w, ts);
      && end.current.version == s.version + 1 && end.current.deployment.DeploymentFailed?
      && StatusVerdict(end.current.(deployment := Progressing), end.rows, 0, 0) == Some(Progressing)
      && forall more :: EnabledAll(end, more) && Undisturbed(end.current.image, more) ==>
           NoneAbove(AdvanceAll(end, more).rows, s.version)
  {
    hide StatusVerdict, Coherent, AdvanceAll, EnabledAll;
    var rows := OneFailed(s);
    w, ts := World(s, s, false, rows), Overtaken(s);
    OvertakenRun(w, s);
    var end := AdvanceAll(w, ts);
    VersionsStayCoherent(w, ts);
    forall more | EnabledAll(end, more) && Undisturbed(end.current.image, more)
      ensures NoneAbove(AdvanceAll(end, more).rows, s.version)
    {
      FailureIsFinal(end, more);
      forall id | id in end.rows ensures AdvanceAll(end, more).rows[id].version <= s.version {
        VersionsOfRowsStay(end, more, id);
      }
    }
  }

  /** A row keeps its version. */
  lemma {:induction false} VersionsOfRowsStay(w: World, ts: seq<Tick>, id: WorkloadId)
    requires EnabledAll(w, ts) && id in w.rows
    ensures id in AdvanceAll(w, ts).rows && AdvanceAll(w, ts).rows[id].version == w.rows[id].version
    decreases |ts|
  {
    if |ts| > 0 {
      VersionsOfRowsStay(w, ts[..|ts| - 1], id);
    }
  }

  /**
    When the cycle finds its copy of the service rolled out, so is the service itself exactly if the copy has
    its version and its replica number, or the newer service wants nothing and nothing is active.
   */
  lemma AvailableIsRight(w: World)
    requires Coherent(w) && RolledOut(w.snapshot, w.rows)
    ensures RolledOut(w.current, w.rows) <==>
      if w.snapshot.version == w.current.version then w.snapshot.desiredReplicas == w.current.desiredReplicas
      else w.current.desiredReplicas == 0 && Census(w.rows, w.current.id, AnyActive) == 0
  {
    if w.snapshot.version < w.current.version {
      NothingOfNewVersion(w);
    }
  }

  lemma NothingOfNewVersion(w: World)
    requires Coherent(w) && w.snapshot.version < w.current.version
    ensures Census(w.rows, w.current.id, RunningAt(w.current.version)) == 0
    ensures Census(w.rows, w.current.id, FailedAt(w.current.version)) == 0
    ensures Census(w.rows, w.current.id, OldActive(w.current.version)) == Census(w.rows, w.current.id, AnyActive)
  {
    assert Members(w.rows, w.current.id, RunningAt(w.current.version)) == {};
    assert Members(w.rows, w.current.id, FailedAt(w.current.version)) == {};
    assert Members(w.rows, w.current.id, OldActive(w.current.version)) == Members(w.rows, w.current.id, AnyActive);
  }

  /**
    When the cycle finds that its copy failed, the service itself has failed exactly if it is of the same
    version and not rolled out at its own replica number, or is of a newer version that has already run out of
    time and still wants, or still has, anything at all.
   */
  lemma FailedIsRight(w: World, now: int, timeout: int)
    requires Coherent(w) && StatusVerdict(w.snapshot, w.rows, now, timeout) == Some(DeploymentFailed)
    requires !w.current.deployment.DeploymentFailed?
    ensures StatusVerdict(w.current, w.rows, now, timeout) == Some(DeploymentFailed) <==>
      if w.snapshot.version == w.current.version then
        Census(w.rows, w.current.id, RunningAt(w.current.version)) != w.current.desiredReplicas ||
        Census(w.rows, w.current.id, OldActive(w.current.version)) > 0
      else
        TimedOut(w.current, now, timeout) &&
        (w.current.desiredReplicas > 0 || Census(w.rows, w.current.id, AnyActive) > 0)
  {
    if w.snapshot.version < w.current.version {
      NothingOfNewVersion(w);
    }
  }
}
