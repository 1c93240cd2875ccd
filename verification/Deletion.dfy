/**
  The deletion controller and the deployment status controller.
 */
module Deletion {
  import opened Model
  import opened Tables
  import opened Ledger
  import opened Services
  import opened Store

  // ---- Deletion ----

  function DrainRow(w: Workload, s: ServiceId): Workload {
    if w.service == s && InUse(w.actual) then w.(desired := Stopped) else w
  }

  /** What is pending, scheduled or running for the service is asked to stop; nothing else is written. */
  predicate Drains(a: Workload, b: Workload, s: ServiceId) {
    if a.service == s && (a.actual == Pending || a.actual == Scheduled || a.actual == Running)
    then b == Workload(a.id, a.service, a.node, a.container, a.image, a.cpu, a.memory, a.version,
                       Stopped, a.actual, a.held)
    else b == a
  }

  /** Every in-use workload of the service is asked to stop. */
  ghost function DrainMarked(rows: Rows, s: ServiceId): Rows {
    map id | id in rows :: DrainRow(rows[id], s)
  }

  method AskToStop(store: Postgres, w: Workload)
    requires store.Valid() && w.id in store.workloads && store.workloads[w.id] == w && InUse(w.actual)
    modifies store
    ensures store.Valid() && store.origin == old(store.origin) && store.nodes == old(store.nodes)
    ensures store.services == old(store.services) && Grew(old(store.log), store.log, {KDesired})
    ensures store.workloads == old(store.workloads)[w.id := w.(desired := Stopped)]
    ensures SteersOnly(store.origin, store.log, |old(store.log)|, w.service)
  {
    hide Run, LawfulRun, Sound, SteersOnly;
    NothingSteered(store.origin, store.log, w.service);
    if w.desired != Stopped {
      SteersOnlySnoc(store.origin, store.log, SetDesired(w.id, Stopped), |store.log|, w.service);
      store.UpdateWorkloadDesiredState(w.id, Stopped);
    }
  }

  /** The first `k` listed rows have been seen to. */
  ghost predicate DrainedTo(ws: seq<Workload>, k: nat, rows: Rows, now: Rows, s: ServiceId) {
    && now.Keys == rows.Keys
    && (forall j :: 0 <= j < |ws| ==> ws[j].id in now && now[ws[j].id] == if j < k then DrainRow(ws[j], s) else ws[j])
    && (forall id :: id in rows && rows[id].service != s ==> now[id] == rows[id])
  }

  lemma DrainsOn(ws: seq<Workload>, k: nat, rows: Rows, before: Rows, after: Rows, s: ServiceId)
    requires Lists(ws, rows, s) && k < |ws| && DrainedTo(ws, k, rows, before, s)
    requires after == before[ws[k].id := DrainRow(ws[k], s)]
    ensures DrainedTo(ws, k + 1, rows, after, s)
  {
    hide DrainRow;
  }

  lemma DrainedAll(ws: seq<Workload>, rows: Rows, after: Rows, s: ServiceId)
    requires Keyed(rows) && Lists(ws, rows, s) && DrainedTo(ws, |ws|, rows, after, s)
    ensures after == DrainMarked(rows, s)
    ensures AllFinished(rows, s) <==> forall j :: 0 <= j < |ws| ==> !InUse(ws[j].actual)
  {
    forall id | id in rows && rows[id].service == s
      ensures after[id] == DrainRow(rows[id], s) && exists j :: 0 <= j < |ws| && ws[j] == rows[id]
    {
      assert rows[id] in ws;
    }
  }

  /** The loop of the controller: mark what is in use, and tell whether nothing was. */
  method Drain(store: Postgres, s: ServiceId) returns (allFinished: bool)
    requires store.Valid()
    modifies store
    ensures store.Valid() && store.origin == old(store.origin) && store.nodes == old(store.nodes)
    ensures store.services == old(store.services) && Grew(old(store.log), store.log, {KDesired})
    ensures store.workloads == DrainMarked(old(store.workloads), s)
    ensures allFinished <==> AllFinished(old(store.workloads), s)
    ensures forall id :: id in store.workloads ==>
      Drains(old(store.workloads)[id], store.workloads[id], s)
    ensures allFinished <==> forall id :: id in store.workloads && store.workloads[id].service == s ==>
      store.workloads[id].actual == Failed || store.workloads[id].actual == Stopped
    ensures SteersOnly(store.origin, store.log, |old(store.log)|, s)
  {
    hide Run, LawfulRun, Sound, DrainMarked, AllFinished, SteersOnly;
    NothingSteered(store.origin, store.log, s);
    store.TablesKeyed();
    ghost var rows := store.workloads;
    var ws := store.ListWorkloadsByService(s);
    allFinished := true;
    for k := 0 to |ws|
      invariant store.Valid() && store.origin == old(store.origin) && store.nodes == old(store.nodes)
      invariant store.services == old(store.services) && Grew(old(store.log), store.log, {KDesired})
      invariant DrainedTo(ws, k, rows, store.workloads, s)
      invariant allFinished <==> forall j :: 0 <= j < k ==> !InUse(ws[j].actual)
      invariant SteersOnly(store.origin, store.log, |old(store.log)|, s)
    {
      ghost var before, log := store.workloads, store.log;
      if InUse(ws[k].actual) {
        allFinished := false;
        AskToStop(store, ws[k]);
        SteersOnlyThrough(store.origin, log, store.log, |old(store.log)|, s);
      }
      DrainsOn(ws, k, rows, before, store.workloads, s);
    }
    DrainedAll(ws, rows, store.workloads, s);
    DrainedInColumns(rows, s);
  }

  lemma DrainedInColumns(rows: Rows, s: ServiceId)
    ensures forall id :: id in rows ==> Drains(rows[id], DrainMarked(rows, s)[id], s)
    ensures AllFinished(rows, s) <==> forall id :: id in rows && DrainMarked(rows, s)[id].service == s ==>
      DrainMarked(rows, s)[id].actual == Failed || DrainMarked(rows, s)[id].actual == Stopped
  {
  }

  method ReconcileDeletion(store: Postgres, s: Service) returns (ok: bool)
    requires store.Valid()
    modifies store
    ensures store.Valid() && store.origin == old(store.origin) && store.nodes == old(store.nodes)
    ensures Grew(old(store.log), store.log, {KDesired})
    ensures store.workloads ==
      if s.status.Deleting? then DrainMarked(old(store.workloads), s.id) else old(store.workloads)
    ensures store.services ==
      if s.status.Deleting? && AllFinished(old(store.workloads), s.id) && s.id in old(store.services)
      then old(store.services)[s.id := WithDeleted(old(store.services)[s.id])]
      else old(store.services)
    ensures SteersOnly(store.origin, store.log, |old(store.log)|, s.id)
  {
    hide Run, LawfulRun, Sound, SteersOnly;
    NothingSteered(store.origin, store.log, s.id);
    if !s.status.Deleting? { return true; }
    var allFinished := Drain(store, s.id);
    if !allFinished { return true; }
    ok := store.MarkServiceDeleted(s.id);
  }

  // ---- Deployment status ----

  lemma CountNothing(ws: seq<Workload>, g: Group)
    ensures |Filter(ws[..0], g)| == 0
  {
  }

  lemma CountOneMore(ws: seq<Workload>, k: nat, g: Group)
    requires k < |ws|
    ensures |Filter(ws[..k + 1], g)| == |Filter(ws[..k], g)| + if In(g, ws[k]) then 1 else 0
  {
    assert ws[..k + 1][..k] == ws[..k];
  }

  /** The loop of the controller: what is left of older versions, and what became of the current one. */
  method CountForStatus(ws: seq<Workload>, version: int)
    returns (oldActive: nat, newRunning: nat, newFailed: nat)
    ensures oldActive == |Filter(ws, OldActive(version))|
    ensures newRunning == |Filter(ws, RunningAt(version))|
    ensures newFailed == |Filter(ws, FailedAt(version))|
  {
    CountNothing(ws, OldActive(version));
    CountNothing(ws, RunningAt(version));
    CountNothing(ws, FailedAt(version));
    hide Filter;
    oldActive, newRunning, newFailed := 0, 0, 0;
    for k := 0 to |ws|
      invariant oldActive == |Filter(ws[..k], OldActive(version))|
      invariant newRunning == |Filter(ws[..k], RunningAt(version))|
      invariant newFailed == |Filter(ws[..k], FailedAt(version))|
    {
      CountOneMore(ws, k, OldActive(version));
      CountOneMore(ws, k, RunningAt(version));
      CountOneMore(ws, k, FailedAt(version));
      var w := ws[k];
      if w.version < version {
        if IsActive(w) { oldActive := oldActive + 1; }
        continue;
      }
      if w.version > version { continue; }
      match w.actual
      case Running => newRunning := newRunning + 1;
      case Failed => newFailed := newFailed + 1;
      case _ =>
    }
    assert ws[..|ws|] == ws;
  }

  method ReconcileStatus(store: Postgres, s: Service, now: int, timeout: int)
    requires store.Valid()
    modifies store
    ensures store.Valid() && store.origin == old(store.origin) && store.nodes == old(store.nodes)
    ensures store.workloads == old(store.workloads) && store.log == old(store.log)
    ensures var v := StatusVerdict(s, old(store.workloads), now, timeout);
      store.services ==
        if v.Some? && s.id in old(store.services)
        then old(store.services)[s.id := WithDeployment(old(store.services)[s.id], v.value)]
        else old(store.services)
  {
    hide Run, LawfulRun, Sound;
    if s.deployment.DeploymentFailed? { return; }
    store.TablesKeyed();
    var ws := store.ListWorkloadsByService(s.id);
    var oldActive, newRunning, newFailed := CountForStatus(ws, s.version);
    ListingCounts(ws, store.workloads, s.id, OldActive(s.version));
    ListingCounts(ws, store.workloads, s.id, RunningAt(s.version));
    ListingCounts(ws, store.workloads, s.id, FailedAt(s.version));
    hide Filter, Members;
    if newRunning == s.desiredReplicas && oldActive == 0 {
      store.UpdateDeploymentStatus(s.id, Available);
      return;
    }
    if newFailed > 0 {
      store.UpdateDeploymentStatus(s.id, DeploymentFailed);
      return;
    }
    if s.startedAt.Some? && now - s.startedAt.value > timeout {
      store.UpdateDeploymentStatus(s.id, DeploymentFailed);
      return;
    }
    store.UpdateDeploymentStatus(s.id, Progressing);
  }
}
