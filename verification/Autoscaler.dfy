/**
  The autoscaler: one visit to a service, and the stability window it keeps in memory between visits.

  The window's map is related to the full history of what was done to it: cleanups, measurement errors that
  drop an entry, and proposals.
 */
module Autoscaler {
  import opened Model
  import opened Tables
  import opened Ledger
  import opened Services
  import opened Store
  import opened Policy

  const TTL := 600 * SECOND

  datatype Observation = Observation(desired: int, count: int, lastSeen: int)

  // ---- The history of the window ----

  datatype Happening =
    | Cleanup(now: int)
    | Drop(service: ServiceId)
    | Propose(service: ServiceId, desired: int, required: int, now: int)

  datatype Sighting = Sighting(desired: int, time: int)

  /** The proposals for a service that count after one more happening. */
  function Counting(p: seq<Sighting>, e: Happening, s: ServiceId): seq<Sighting> {
    if e.Cleanup? then (if |p| > 0 && e.now - p[|p| - 1].time > TTL then [] else p)
    else if e.service != s then p
    else if e.Drop? then []
    else if e.required > 1 then p + [Sighting(e.desired, e.now)]
    else p
  }

  /** The proposals for the service that still count: those since its entry was last dropped or expired. */
  function Since(h: seq<Happening>, s: ServiceId): seq<Sighting> {
    if |h| == 0 then [] else Counting(Since(h[..|h| - 1], s), h[|h| - 1], s)
  }

  /** The length of the final run of equal proposals. */
  function FinalRun(p: seq<Sighting>): nat {
    if |p| == 0 then 0
    else if |p| == 1 || p[|p| - 2].desired != p[|p| - 1].desired then 1
    else FinalRun(p[..|p| - 1]) + 1
  }

  /** It is the maximal one: the last `k` proposals are equal exactly for every `k` up to it. */
  lemma {:induction false} FinalRunIsMaximal(p: seq<Sighting>, k: nat)
    requires 0 < k <= |p|
    ensures k <= FinalRun(p) <==> forall i :: |p| - k <= i < |p| ==> p[i].desired == p[|p| - 1].desired
  {
    if k > 1 {
      var init := p[..|p| - 1];
      FinalRunIsMaximal(init, k - 1);
      if p[|p| - 2].desired == p[|p| - 1].desired {
        assert forall i :: |p| - k <= i < |p| - 1 ==> init[i] == p[i];
      }
    } else {
      assert FinalRun(p) >= 1;
    }
  }

  /** The entry a service has in the window, read off the history. */
  function Entry(h: seq<Happening>, s: ServiceId): Option<Observation> {
    var p := Since(h, s);
    if |p| == 0 then None
    else Some(Observation(p[|p| - 1].desired, FinalRun(p), p[|p| - 1].time))
  }

  ghost predicate Agree(obs: map<ServiceId, Observation>, h: seq<Happening>) {
    forall s :: Entry(h, s) == if s in obs then Some(obs[s]) else None
  }

  lemma SinceSnoc(h: seq<Happening>, e: Happening, s: ServiceId)
    ensures Since(h + [e], s) == Counting(Since(h, s), e, s)
  {
    assert (h + [e])[..|h|] == h;
  }

  lemma FinalRunSnoc(p: seq<Sighting>, x: Sighting)
    ensures FinalRun(p + [x]) == if |p| > 0 && p[|p| - 1].desired == x.desired then FinalRun(p) + 1 else 1
  {
    assert (p + [x])[..|p|] == p;
  }

  /** What one happening makes of an entry. */
  function NextEntry(x: Option<Observation>, e: Happening, s: ServiceId): Option<Observation> {
    if e.Cleanup? then (if x.Some? && e.now - x.value.lastSeen > TTL then None else x)
    else if e.service != s then x
    else if e.Drop? then None
    else if e.required <= 1 then x
    else Some(Observation(e.desired, if x.Some? && x.value.desired == e.desired then x.value.count + 1 else 1, e.now))
  }

  lemma EntrySnoc(h: seq<Happening>, e: Happening, s: ServiceId)
    ensures Entry(h + [e], s) == NextEntry(Entry(h, s), e, s)
  {
    SinceSnoc(h, e, s);
    if e.Propose? && e.service == s && e.required > 1 {
      FinalRunSnoc(Since(h, s), Sighting(e.desired, e.now));
    }
  }

  lemma EntryCounts(h: seq<Happening>, s: ServiceId)
    requires Entry(h, s).Some?
    ensures Entry(h, s).value.count == FinalRun(Since(h, s))
  {
  }

  lemma EntryInMap(obs: map<ServiceId, Observation>, h: seq<Happening>, s: ServiceId)
    requires Agree(obs, h) && s in obs
    ensures Entry(h, s) == Some(obs[s])
  {
  }

  lemma AgreeSnoc(before: map<ServiceId, Observation>, h: seq<Happening>, e: Happening,
                  after: map<ServiceId, Observation>)
    requires Agree(before, h)
    requires forall s :: (if s in after then Some(after[s]) else None)
                      == NextEntry(if s in before then Some(before[s]) else None, e, s)
    ensures Agree(after, h + [e])
  {
    hide Entry;
    forall s ensures Entry(h + [e], s) == if s in after then Some(after[s]) else None {
      EntrySnoc(h, e, s);
    }
  }

  // ---- Usage ----

  function Reading(usage: map<WorkloadId, int>, id: WorkloadId): int {
    if id in usage then usage[id] else 0
  }

  ghost function Total(ids: set<WorkloadId>, usage: map<WorkloadId, int>): int {
    if ids == {} then 0
    else
      var id :| id in ids;
      Reading(usage, id) + Total(ids - {id}, usage)
  }

  /** The total adds up the readings: each workload brings in its own, whatever the order. */
  lemma {:induction false} TotalWith(ids: set<WorkloadId>, id: WorkloadId, usage: map<WorkloadId, int>)
    requires id !in ids
    ensures Total(ids + {id}, usage) == Total(ids, usage) + Reading(usage, id)
    ensures id in usage ==> Total(ids + {id}, usage) == Total(ids, usage) + usage[id]
    ensures Total({}, usage) == 0
    decreases |ids|
  {
    var all := ids + {id};
    var pick := FirstOf(all, usage);
    assert Total({}, usage) == 0;
    hide Total;
    if pick == id {
      assert all - {id} == ids;
    } else {
      var rest := ids - {pick};
      assert all - {pick} == rest + {id} && ids == rest + {pick};
      TotalWith(rest, id, usage);
      TotalWith(rest, pick, usage);
    }
  }

  lemma FirstOf(ids: set<WorkloadId>, usage: map<WorkloadId, int>) returns (id: WorkloadId)
    requires ids != {}
    ensures id in ids && Total(ids, usage) == Reading(usage, id) + Total(ids - {id}, usage)
  {
    id :| id in ids && Total(ids, usage) == Reading(usage, id) + Total(ids - {id}, usage);
  }

  function TotalAlong(ws: seq<Workload>, usage: map<WorkloadId, int>): int {
    if |ws| == 0 then 0 else TotalAlong(ws[..|ws| - 1], usage) + Reading(usage, ws[|ws| - 1].id)
  }

  /** Adding up along a listing gives the total over the rows listed. */
  lemma {:induction false} TotalOfListing(ws: seq<Workload>, usage: map<WorkloadId, int>)
    requires Distinct(ws)
    ensures TotalAlong(ws, usage) == Total(IdsOf(ws), usage)
  {
    if |ws| > 0 {
      var init, last := ws[..|ws| - 1], ws[|ws| - 1];
      TotalOfListing(init, usage);
      assert IdsOf(ws) == IdsOf(init) + {last.id} by {
        forall id | id in IdsOf(ws) ensures id in IdsOf(init) + {last.id} {
          var i :| 0 <= i < |ws| && ws[i].id == id;
          if i < |init| { assert init[i].id == id; }
        }
        forall id | id in IdsOf(init) + {last.id} ensures id in IdsOf(ws) {
          if id in IdsOf(init) {
            var i :| 0 <= i < |init| && init[i].id == id;
            assert ws[i].id == id;
          } else {
            assert ws[|ws| - 1].id == id;
          }
        }
      }
      TotalWith(IdsOf(init), last.id, usage);
    }
  }

  /** What the metrics say of the running replicas of the current version: nothing if one reading is missing. */
  datatype Measurement = Unavailable | Measured(running: nat, total: int)

  ghost function Measure(rows: Rows, s: Service, usage: map<WorkloadId, int>): Measurement {
    var ids := Members(rows, s.id, RunningAt(s.version));
    if ids <= usage.Keys then Measured(|ids|, Total(ids, usage)) else Unavailable
  }

  lemma NothingMeasured(ws: seq<Workload>, g: Group, usage: map<WorkloadId, int>)
    ensures Filter(ws[..0], g) == [] && TotalAlong([], usage) == 0
  {
  }

  lemma MeasureOneMore(ws: seq<Workload>, k: nat, g: Group, usage: map<WorkloadId, int>)
    requires k < |ws|
    ensures var before, after := Filter(ws[..k], g), Filter(ws[..k + 1], g);
      && |after| == |before| + (if In(g, ws[k]) then 1 else 0)
      && TotalAlong(after, usage) == TotalAlong(before, usage) + (if In(g, ws[k]) then Reading(usage, ws[k].id) else 0)
  {
    var before, after := Filter(ws[..k], g), Filter(ws[..k + 1], g);
    assert ws[..k + 1][..k] == ws[..k];
    assert after == if In(g, ws[k]) then before + [ws[k]] else before;
    if In(g, ws[k]) {
      assert after[..|after| - 1] == before;
    }
  }

  /** The measurement along a listing is the measurement of the table. */
  lemma MeasureAlong(ws: seq<Workload>, rows: Rows, s: Service, usage: map<WorkloadId, int>)
    requires Keyed(rows) && Lists(ws, rows, s.id)
    ensures (exists i :: 0 <= i < |ws| && In(RunningAt(s.version), ws[i]) && ws[i].id !in usage)
      ==> Measure(rows, s, usage).Unavailable?
    ensures (forall i :: 0 <= i < |ws| && In(RunningAt(s.version), ws[i]) ==> ws[i].id in usage)
      ==> Measure(rows, s, usage) ==
          Measured(|Filter(ws, RunningAt(s.version))|, TotalAlong(Filter(ws, RunningAt(s.version)), usage))
  {
    hide Filter, TotalAlong, Total, IdsOf, Census;
    var g := RunningAt(s.version);
    assert |Filter(ws, g)| == |Members(rows, s.id, g)| by {
      ListingCounts(ws, rows, s.id, g);
      SizeIsCensus(rows, s.id, g);
    }
    assert TotalAlong(Filter(ws, g), usage) == Total(Members(rows, s.id, g), usage) by {
      ListingCounts(ws, rows, s.id, g);
      FilterKeepsGroup(ws, g);
      TotalOfListing(Filter(ws, g), usage);
    }
    forall i | 0 <= i < |ws| && In(g, ws[i]) ensures ws[i].id in Members(rows, s.id, g) {
    }
    if forall i :: 0 <= i < |ws| && In(g, ws[i]) ==> ws[i].id in usage {
      forall id | id in Members(rows, s.id, g) ensures id in usage {
        assert rows[id] in ws;
      }
    }
  }

  lemma SizeIsCensus(rows: Rows, s: ServiceId, g: Group)
    ensures Census(rows, s, g) == |Members(rows, s, g)|
  {
  }

  method MeasureService(store: Postgres, s: Service, usage: map<WorkloadId, int>) returns (m: Measurement)
    requires Keyed(store.workloads)
    ensures m == Measure(store.workloads, s, usage)
  {
    hide Filter, TotalAlong, Measure, Keyed, Lists;
    var ws := store.ListWorkloadsByService(s.id);
    ghost var g := RunningAt(s.version);
    MeasureAlong(ws, store.workloads, s, usage);
    NothingMeasured(ws, g, usage);
    assert ws[..|ws|] == ws;
    var total, running := 0, 0;
    for k := 0 to |ws|
      invariant running == |Filter(ws[..k], g)| && total == TotalAlong(Filter(ws[..k], g), usage)
      invariant forall i :: 0 <= i < k && In(g, ws[i]) ==> ws[i].id in usage
    {
      MeasureOneMore(ws, k, g, usage);
      if ws[k].version != s.version { continue; }
      if !ws[k].actual.Running? { continue; }
      if ws[k].id !in usage { return Unavailable; }
      total := total + usage[ws[k].id];
      running := running + 1;
    }
    return Measured(running, total);
  }

  class Autoscaler {
    var observations: map<ServiceId, Observation>
    ghost var history: seq<Happening>

    ghost predicate Valid()
      reads this
    {
      Agree(observations, history)
    }

    constructor ()
      ensures Valid() && history == []
    {
      observations, history := map[], [];
    }

    /** Drops every entry not seen for more than ten minutes. */
    method CleanupObservations(now: int)
      requires Valid()
      modifies this
      ensures Valid() && history == old(history) + [Cleanup(now)]
      ensures observations ==
        map s | s in old(observations) && now - old(observations)[s].lastSeen <= 600_000_000_000 :: old(observations)[s]
    {
      var rest := observations.Keys;
      while rest != {}
        invariant rest <= observations.Keys <= old(observations).Keys && history == old(history)
        invariant forall s :: s in observations ==> observations[s] == old(observations)[s]
        invariant forall s :: s in old(observations) && s !in rest ==>
          (s in observations <==> now - old(observations)[s].lastSeen <= TTL)
      {
        var s :| s in rest;
        rest := rest - {s};
        if now - observations[s].lastSeen > TTL {
          observations := observations - {s};
        }
      }
      history := history + [Cleanup(now)];
      AgreeSnoc(old(observations), old(history), Cleanup(now), observations);
    }

    method DropObservation(s: ServiceId)
      requires Valid()
      modifies this
      ensures Valid() && history == old(history) + [Drop(s)] && observations == old(observations) - {s}
    {
      observations := observations - {s};
      history := history + [Drop(s)];
      AgreeSnoc(old(observations), old(history), Drop(s), observations);
    }

    /**
      Whether the proposal is stable: the final run of equal proposals for the service, this one included,
      is as long as required. Requiring one or fewer leaves the window alone.
     */
    method StableObservation(s: ServiceId, desired: int, required: int, now: int) returns (stable: bool)
      requires Valid()
      modifies this
      ensures Valid() && history == old(history) + [Propose(s, desired, required, now)]
      ensures stable <==> required <= 1 || FinalRun(Since(history, s)) >= required
      ensures required <= 1 ==> observations == old(observations)
      ensures var again := s in old(observations) && old(observations)[s].desired == desired;
        && (stable <==> required <= 1 || (again && old(observations)[s].count + 1 >= required))
        && (required > 1 ==> s in observations && observations[s].desired == desired && observations[s].lastSeen == now)
        && (required > 1 ==> observations[s].count == if again then old(observations)[s].count + 1 else 1)
      ensures s !in old(observations) && required > 1 ==> !stable
      ensures forall o :: o != s ==>
        && (o in observations <==> o in old(observations))
        && (o in observations ==> observations[o] == old(observations)[o])
    {
      hide Agree, Since, FinalRun, Entry;
      if required <= 1 {
        stable := true;
      } else if s !in observations || observations[s].desired != desired {
        observations := observations[s := Observation(desired, 1, now)];
        stable := false;
      } else {
        observations := observations[s := observations[s].(count := observations[s].count + 1, lastSeen := now)];
        stable := observations[s].count >= required;
      }
      history := history + [Propose(s, desired, required, now)];
      AgreeSnoc(old(observations), old(history), Propose(s, desired, required, now), observations);
      if required > 1 {
        EntryInMap(observations, history, s);
        EntryCounts(history, s);
      }
    }

    /**
      One visit. A missing reading drops the service's entry and is reported; otherwise the service is put to
      `Proposal`, a proposal to the stability window, and a stable one to the table.
     */
    method ReconcileService(store: Postgres, s: Service, usage: map<WorkloadId, int>, cleaned: int, now: int, at: int)
      returns (ok: bool, ghost visit: Visit)
      requires Valid() && store.Valid()
      modifies this, store
      ensures Valid() && store.Valid() && store.OnlyServices()
      ensures var m := Measure(store.workloads, s, usage);
        if Considered(s) && m.Unavailable?
        then !ok && history == old(history) + [Cleanup(cleaned), Drop(s.id)] && visit == Visit(s, 0, 0, now, at, false)
        else
          && visit.service == s && visit.now == now && visit.at == at
          && (Considered(s) ==> visit.running == m.running && visit.total == m.total)
          && var p := Proposal(s, visit.running, visit.total, now);
             && history == old(history) + (if s.status.Active? then [Cleanup(cleaned)] else [])
                         + (if p.Some? then [Propose(s.id, p.value, s.autoscaling.requiredObservations, now)] else [])
             && (visit.stable <==> p.Some? && (s.autoscaling.requiredObservations <= 1 ||
                                     FinalRun(Since(history, s.id)) >= s.autoscaling.requiredObservations))
      ensures store.services ==
        if Writes(visit) && s.id in old(store.services)
        then old(store.services)[s.id := WithReplicas(old(store.services)[s.id], After(visit).desiredReplicas, at)]
        else old(store.services)
    {
      hide Run, LawfulRun, Sound, Agree, Since, FinalRun, Measure;
      ok, visit := true, Visit(s, 0, 0, now, at, false);
      if !s.status.Active? { return; }
      CleanupObservations(cleaned);
      if s.deployment.Progressing? || !s.autoscaling.enabled || s.autoscaling.targetCpu <= 0.0 { return; }
      store.TablesKeyed();
      var m := MeasureService(store, s, usage);
      if m.Unavailable? {
        DropObservation(s.id);
        ok := false;
        return;
      }
      visit := Visit(s, m.running, m.total, now, at, false);
      if m.running == 0 { return; }
      if PerReplica(s) <= 0.0 { return; }
      var desired := RawTarget(s, m.total);
      if desired < s.autoscaling.minReplicas { desired := s.autoscaling.minReplicas; }
      if desired > s.autoscaling.maxReplicas { desired := s.autoscaling.maxReplicas; }
      if desired == s.desiredReplicas { return; }
      desired := LimitScaleStep(s.desiredReplicas, desired, s.autoscaling.maxScaleStep);
      if desired == s.desiredReplicas { return; }
      if CooldownActive(s, desired, now) { return; }
      var stable := StableObservation(s.id, desired, s.autoscaling.requiredObservations, now);
      visit := visit.(stable := stable);
      if !stable { return; }
      ok := store.UpdateDesiredReplicas(s.id, desired, at);
    }
  }

  // ---- Runs ----

  /** One request or write that is not an edit of the replica count of service `s`. */
  method OneStatement(store: Postgres, s: ServiceId)
    requires store.Valid() && s in store.services
    modifies store
    ensures store.Valid() && SameScale(store.services, old(store.services), s)
  {
    hide Run, LawfulRun, Sound;
    var o: ServiceId, row: Service, replicas: nat, now: int, status: DeploymentStatus, kind: int := *, *, *, *, *, *;
    if kind == 0 {
      if o == s { replicas := store.services[s].desiredReplicas; }
      store.UpdateService(o, row.image, replicas, row.cpu, row.memory, now);
    } else if kind == 1 {
      store.UpdateDeploymentStatus(o, status);
    } else if kind == 2 {
      var _ := store.MarkServiceDeleting(o);
    } else if kind == 3 {
      var _ := store.MarkServiceDeleted(o);
    } else if kind == 4 {
      var _ := store.CreateService(row);
    } else if o != s {
      var _ := store.UpdateDesiredReplicas(o, replicas, now);
    }
  }

  /** The columns of service `s` that the autoscaler alone writes, and its settings, are as they were. */
  predicate SameScale(now: ServiceRows, before: ServiceRows, s: ServiceId) {
    && s in before && s in now && now[s].id == before[s].id
    && now[s].desiredReplicas == before[s].desiredReplicas
    && now[s].lastScaledAt == before[s].lastScaledAt
    && now[s].autoscaling == before[s].autoscaling
  }

  /**
    Anything that may happen between two visits but an edit of the replica count: writes to nodes, workloads
    and services, as many as one likes.
   */
  method Elsewhere(store: Postgres, s: ServiceId)
    requires store.Valid() && s in store.services
    modifies store
    ensures store.Valid() && SameScale(store.services, old(store.services), s)
  {
    hide Run, LawfulRun, Sound;
    var rounds: int := *;
    for i := 0 to Max(rounds, 0)
      invariant store.Valid() && SameScale(store.services, old(store.services), s)
    {
      store.Interfere();
      store.InterfereWithWorkloads();
      OneStatement(store, s);
    }
  }

  /** The count is within what the service's step and cooldowns allow for a time span. */
  predicate WithinRate(s: Service, count: int, span: int) {
    var step := s.autoscaling.maxScaleStep;
    var cool := SECOND * Min(s.autoscaling.scaleUpCooldown, s.autoscaling.scaleDownCooldown);
    step >= 0 && cool > 0 ==> span >= 0 && Distance(count, s.desiredReplicas) <= step * (span / cool + 1)
  }

  lemma VisitsWithinRate(vs: seq<Visit>, config: AutoscalingConfig)
    requires |vs| > 0 && Visits(vs) && forall k :: 0 <= k < |vs| ==> vs[k].service.autoscaling == config
    ensures WithinRate(vs[0].service, After(vs[|vs| - 1]).desiredReplicas, vs[|vs| - 1].at - vs[0].at)
  {
    hide After, Visits;
    var cool := SECOND * Min(config.scaleUpCooldown, config.scaleDownCooldown);
    if config.maxScaleStep >= 0 && cool > 0 {
      RateIsBounded(vs, 0, |vs| - 1, config.maxScaleStep, cool);
    }
  }

  lemma NoVisits()
    ensures Visits([])
  {
  }

  lemma RowAfter(v: Visit)
    ensures After(v) == if Writes(v) then WithReplicas(v.service, After(v).desiredReplicas, v.at) else v.service
  {
  }

  /** One visit, and whatever happens to the service until the next one. */
  method VisitOnce(a: Autoscaler, store: Postgres, s: ServiceId, usage: map<WorkloadId, int>, now: int, at: int)
    returns (ghost visit: Visit)
    requires a.Valid() && store.Valid() && s in store.services && store.services[s].id == s
    modifies a, store
    ensures a.Valid() && store.Valid() && s in store.services && store.services[s].id == s
    ensures visit.service == old(store.services)[s] && visit.now == now && visit.at == at
    ensures store.services[s].desiredReplicas == After(visit).desiredReplicas
    ensures store.services[s].lastScaledAt == After(visit).lastScaledAt
    ensures store.services[s].autoscaling == visit.service.autoscaling
  {
    hide Run, LawfulRun, Sound, Agree, Since, FinalRun, Measure, Writes, After, Proposal;
    var row := store.services[s];
    var _, v := a.ReconcileService(store, row, usage, now, now, at);
    visit := v;
    RowAfter(visit);
    Elsewhere(store, s);
  }

  /**
    Visits to one service for as long as one likes, with arbitrary readings and a clock that never runs
    backwards. They form a run of `Visits`, so what `Policy` proves of those holds of the stored rows.
   */
  method Watch(a: Autoscaler, store: Postgres, s: ServiceId, rounds: nat,
               readings: seq<map<WorkloadId, int>>, clock: seq<int>)
    returns (ghost vs: seq<Visit>)
    requires a.Valid() && store.Valid() && s in store.services && store.services[s].id == s
    requires |readings| == rounds && |clock| == 2 * rounds
    requires forall i, j :: 0 <= i < j < |clock| ==> clock[i] <= clock[j]
    modifies a, store
    ensures a.Valid() && store.Valid() && s in store.services
    ensures |vs| == rounds && Visits(vs)
    ensures forall k :: 0 <= k < rounds ==>
      vs[k].at == clock[2 * k + 1] && vs[k].service.autoscaling == old(store.services)[s].autoscaling
    ensures rounds > 0 ==>
      && vs[0].service == old(store.services)[s]
      && store.services[s].desiredReplicas == After(vs[rounds - 1]).desiredReplicas
      && store.services[s].lastScaledAt == After(vs[rounds - 1]).lastScaledAt
    ensures rounds > 0 ==>
      WithinRate(old(store.services)[s], store.services[s].desiredReplicas, clock[2 * rounds - 1] - clock[1])
  {
    hide Run, LawfulRun, Sound, Agree, After, Visits, WithinRate;
    vs := [];
    assert Visits(vs) by { NoVisits(); }
    for k := 0 to rounds
      invariant a.Valid() && store.Valid() && s in store.services && store.services[s].id == s
      invariant |vs| == k && Visits(vs)
      invariant forall i :: 0 <= i < k ==>
        vs[i].at == clock[2 * i + 1] && vs[i].service.autoscaling == old(store.services)[s].autoscaling
      invariant store.services[s].autoscaling == old(store.services)[s].autoscaling
      invariant if k == 0 then store.services[s] == old(store.services)[s] else
        && vs[0].service == old(store.services)[s]
        && store.services[s].desiredReplicas == After(vs[k - 1]).desiredReplicas
        && store.services[s].lastScaledAt == After(vs[k - 1]).lastScaledAt
    {
      ghost var visit := VisitOnce(a, store, s, readings[k], clock[2 * k], clock[2 * k + 1]);
      VisitsSnoc(vs, visit);
      vs := vs + [visit];
    }
    if rounds > 0 {
      VisitsWithinRate(vs, old(store.services)[s].autoscaling);
    }
  }
}
