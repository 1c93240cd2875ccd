/**
  Carrying out desired states: the node agents' API, the executor, and the two loops of the reconciler that
  walk a listing while the rows behind it change.
 */
module Execution {
  import opened Model
  import opened Tables
  import opened Ledger
  import opened Store
  import opened Placement

  datatype Container = Container(id: ContainerId, status: string)

  /** The requests that change a node, and to which node one went and how it was answered. */
  datatype Call =
    | CreateFor(workload: WorkloadId)
    | Start(container: ContainerId)
    | Halt(container: ContainerId)
    | Delete(container: ContainerId)
  datatype Answer = Answer(at: Option<NodeId>, call: Call, granted: bool)

  /**
    The node agents. Every request may fail, unless `reliable`; `listings` is what the agents report, with no
    entry for an agent that cannot be reached. The `trace` records every request that was made.
   */
  class NodeClient {
    const reliable: bool
    const listings: map<NodeId, seq<Container>>
    ghost var trace: seq<Answer>

    constructor (reliable: bool, listings: map<NodeId, seq<Container>>)
      ensures this.reliable == reliable && this.listings == listings && trace == []
    {
      this.reliable, this.listings, trace := reliable, listings, [];
    }

    method ListContainers(n: NodeId) returns (r: Option<seq<Container>>)
      ensures r == if n in listings then Some(listings[n]) else None
    {
      if n in listings { return Some(listings[n]); }
      return None;
    }

    /** A container that is created gets an id no other container has. */
    method CreateContainer(w: Workload, rows: Rows) returns (c: Option<ContainerId>)
      modifies this
      ensures trace == old(trace) + [Answer(w.node, CreateFor(w.id), c.Some?)]
      ensures reliable ==> c.Some?
      ensures c.Some? ==> Unused(rows, c.value)
    {
      var used := set id | id in rows && rows[id].container.Some? :: rows[id].container.value;
      var id := NewId(used);
      assert Unused(rows, id) by {
        forall k | k in rows ensures rows[k].container != Some(id) {
          assert rows[k].container.Some? ==> rows[k].container.value in used;
        }
      }
      var ok: bool := *;
      c := if reliable || ok then Some(id) else None;
      trace := trace + [Answer(w.node, CreateFor(w.id), c.Some?)];
    }

    /** `StartContainer`, `StopContainer` (here `Halt`) and `DeleteContainer`. */
    method Request(at: Option<NodeId>, call: Call) returns (ok: bool)
      modifies this
      ensures trace == old(trace) + [Answer(at, call, ok)]
      ensures reliable ==> ok
    {
      ok := *;
      ok := reliable || ok;
      trace := trace + [Answer(at, call, ok)];
    }
  }

  /** What the executor may make of row `a`. */
  predicate Executed(a: Workload, b: Workload) {
    || b == a
    || (a.desired.Scheduled? && (a.actual.Pending? || a.actual.Scheduled?) &&
        (b == a.(actual := Failed, held := false) ||
         (b.container.Some? && b == a.(container := b.container, actual := Running))))
    || (a.desired.Stopped? && b == a.(actual := Stopped, held := false))
  }

  lemma SameRowExecuted(rows: Rows)
    ensures forall id :: id in rows ==> Executed(rows[id], rows[id])
  {
  }

  lemma ExecutedKeepsService(before: Rows, after: Rows)
    requires before.Keys == after.Keys && forall id :: id in before ==> Executed(before[id], after[id])
    ensures forall id :: id in before ==> before[id].service == after[id].service
  {
  }

  /** The row does not wait to be started. */
  predicate Underway(w: Workload) {
    w.desired.Scheduled? ==> !w.actual.Pending? && !w.actual.Scheduled?
  }

  /** The row runs if it is active at all. */
  predicate Up(w: Workload) {
    IsActive(w) ==> w.actual.Running?
  }

  /** The row runs, or is still to be placed or started, if it is active at all. */
  predicate Rising(w: Workload) {
    IsActive(w) ==> w.actual.Running? || w.actual.Pending?
  }

  ghost predicate AllUp(rows: Rows, s: ServiceId) {
    forall id :: id in rows && rows[id].service == s ==> Up(rows[id])
  }

  ghost predicate AllRising(rows: Rows, s: ServiceId) {
    forall id :: id in rows && rows[id].service == s ==> Rising(rows[id])
  }

  /** Only row `id` differs, and it is as the executor may leave it. */
  ghost predicate ExecutedOnly(before: Rows, after: Rows, id: WorkloadId) {
    id in before && id in after && Executed(before[id], after[id]) && after == before[id := after[id]]
  }

  /** How starting row `a` went, request by request, and what it made of the row. */
  ghost predicate StartedBy(a: Workload, b: Workload, calls: seq<Answer>) {
    if !a.desired.Scheduled? then calls == [] && b == a
    else if |calls| == 1 then calls[0] == Answer(a.node, CreateFor(a.id), false) && b == a
    else
      && |calls| == 2 && calls[0] == Answer(a.node, CreateFor(a.id), true)
      && calls[1].at == a.node && calls[1].call.Start?
      && b == if calls[1].granted then a.(container := Some(calls[1].call.container), actual := Running)
              else a.(actual := Failed, held := false)
  }

  /** How stopping row `a` went: its container, if it has one, is stopped and then deleted before the row is. */
  ghost predicate StoppedBy(a: Workload, b: Workload, calls: seq<Answer>) {
    if !a.desired.Stopped? || a.actual.Stopped? then calls == [] && b == a
    else if a.container.None? then calls == [] && b == a.(actual := Stopped, held := false)
    else if |calls| == 1 then calls[0] == Answer(a.node, Halt(a.container.value), false) && b == a
    else
      && |calls| == 2 && calls[0] == Answer(a.node, Halt(a.container.value), true)
      && calls[1].at == a.node && calls[1].call == Delete(a.container.value)
      && b == if calls[1].granted then a.(actual := Stopped, held := false) else a
  }

  method Execute(store: Postgres, client: NodeClient, w: Workload) returns (ok: bool, ghost calls: seq<Answer>)
    requires store.Valid()
    requires w.id in store.workloads && store.workloads[w.id] == w && (w.actual.Pending? || w.actual.Scheduled?)
    modifies store, client
    ensures store.Valid() && store.origin == old(store.origin) && store.services == old(store.services)
    ensures Grew(old(store.log), store.log, {KRunning, KFail, KEnvironment})
    ensures ExecutedOnly(old(store.workloads), store.workloads, w.id)
    ensures StartedBy(w, store.workloads[w.id], calls)
    ensures client.reliable ==> ok
    ensures client.trace == old(client.trace) + calls
    ensures ok <==> forall i :: 0 <= i < |calls| ==> calls[i].granted
  {
    hide Run, LawfulRun;
    calls := [];
    if w.desired != Scheduled { return true, calls; }
    store.TablesSound();
    var container := client.CreateContainer(w, store.workloads);
    calls := [Answer(w.node, CreateFor(w.id), container.Some?)];
    if container.None? { return false, calls; }
    var started := client.Request(w.node, Start(container.value));
    calls := calls + [Answer(w.node, Start(container.value), started)];
    if !started {
      var _ := store.MarkWorkloadFailedAndReleaseResources(w.id);
      assert !calls[1].granted;
      return false, calls;
    }
    ok := store.MarkWorkloadRunning(w.id, container.value);
  }

  method Stop(store: Postgres, client: NodeClient, w: Workload) returns (ok: bool, ghost calls: seq<Answer>)
    requires store.Valid()
    requires w.id in store.workloads && store.workloads[w.id] == w
    modifies store, client
    ensures store.Valid() && store.origin == old(store.origin) && store.services == old(store.services)
    ensures Grew(old(store.log), store.log, {KStop, KEnvironment})
    ensures ExecutedOnly(old(store.workloads), store.workloads, w.id)
    ensures StoppedBy(w, store.workloads[w.id], calls)
    ensures client.trace == old(client.trace) + calls
    ensures ok <==> forall i :: 0 <= i < |calls| ==> calls[i].granted
    ensures client.reliable ==> ok
  {
    hide Run, LawfulRun, Sound;
    calls := [];
    if w.desired != Stopped { return true, calls; }
    if w.actual == Stopped { return true, calls; }
    if w.container.Some? {
      var stopped := client.Request(w.node, Halt(w.container.value));
      calls := [Answer(w.node, Halt(w.container.value), stopped)];
      if !stopped { return false, calls; }
      var deleted := client.Request(w.node, Delete(w.container.value));
      calls := calls + [Answer(w.node, Delete(w.container.value), deleted)];
      assert calls[1].granted == deleted;
      if !deleted { return false, calls; }
    }
    ok := store.MarkWorkloadStoppedAndReleaseResources(w.id);
  }

  const EXECUTOR_KINDS := {KRunning, KFail, KStop, KEnvironment}

  /** Only rows of service `s` may differ, each as the executor may leave it. */
  ghost predicate ExecutedWithin(before: Rows, after: Rows, s: ServiceId) {
    && before.Keys == after.Keys
    && forall id :: id in before ==>
         Executed(before[id], after[id]) && (before[id].service != s ==> after[id] == before[id])
  }

  /** How the turn of row `a` went: stop it if asked, start it if it is placed and not underway, or let it be. */
  ghost predicate HandledBy(a: Workload, b: Workload, calls: seq<Answer>) {
    if a.desired == Stopped then StoppedBy(a, b, calls)
    else if a.desired == Scheduled && (a.actual == Pending || a.actual == Scheduled) then StartedBy(a, b, calls)
    else calls == [] && b == a
  }

  function Flatten(stretches: seq<seq<Answer>>): seq<Answer> {
    if |stretches| == 0 then [] else Flatten(stretches[..|stretches| - 1]) + stretches[|stretches| - 1]
  }

  lemma FlattenSnoc(stretches: seq<seq<Answer>>, calls: seq<Answer>)
    ensures Flatten(stretches + [calls]) == Flatten(stretches) + calls
  {
    assert (stretches + [calls])[..|stretches|] == stretches;
  }

  /**
    How a pass over the listing `ws` of service `s` went. Every listed row had its turn, whatever became of the
    turns before: the requests made are one stretch per row, and each stretch accounts for what the row became.
   */
  ghost predicate PassedOver(s: ServiceId, before: Rows, after: Rows, ws: seq<Workload>, stretches: seq<seq<Answer>>) {
    && Lists(ws, before, s) && |stretches| == |ws| && before.Keys == after.Keys
    && forall k :: 0 <= k < |ws| ==> ws[k].id in after && HandledBy(ws[k], after[ws[k].id], stretches[k])
  }

  /** One iteration of the executing loop: stop what was asked to stop, start what was placed. */
  method ExecuteOne(store: Postgres, client: NodeClient, w: Workload) returns (ghost calls: seq<Answer>)
    requires store.Valid()
    requires w.id in store.workloads && store.workloads[w.id] == w
    modifies store, client
    ensures store.Valid() && store.origin == old(store.origin) && store.services == old(store.services)
    ensures Grew(old(store.log), store.log, EXECUTOR_KINDS)
    ensures ExecutedOnly(old(store.workloads), store.workloads, w.id)
    ensures client.reliable && store.workloads[w.id].desired.Stopped? ==> store.workloads[w.id].actual.Stopped?
    ensures client.reliable ==> Underway(store.workloads[w.id])
    ensures client.trace == old(client.trace) + calls && HandledBy(w, store.workloads[w.id], calls)
  {
    hide Run, LawfulRun;
    calls := [];
    store.Interfere();
    store.TablesSound();
    if w.desired.Stopped? {
      if w.node.None? {
        var _, c := Stop(store, client, w);
        calls := c;
      } else {
        var node := store.GetNode(w.node.value);
        if node.Some? {
          var _, c := Stop(store, client, w);
          calls := c;
        }
      }
    } else if w.desired.Scheduled? && (w.actual.Pending? || w.actual.Scheduled?) && w.node.Some? {
      var node := store.GetNode(w.node.value);
      if node.Some? {
        var _, c := Execute(store, client, w);
        calls := c;
      }
    }
  }

  lemma NoStretches()
    ensures Flatten([]) == []
  {
  }

  /**
    One pass over a fresh listing of the service. A row changes only in its own iteration, so every row the
    executor is handed is still the row as listed.
   */
  method ExecuteScheduledWorkloads(store: Postgres, client: NodeClient, s: ServiceId)
    returns (ghost ws: seq<Workload>, ghost stretches: seq<seq<Answer>>)
    requires store.Valid()
    modifies store, client
    ensures store.Valid() && store.origin == old(store.origin) && store.services == old(store.services)
    ensures Grew(old(store.log), store.log, EXECUTOR_KINDS)
    ensures ExecutedWithin(old(store.workloads), store.workloads, s)
    ensures client.reliable ==> forall id :: id in store.workloads ==>
      (store.workloads[id].service == s && store.workloads[id].desired.Stopped? ==> store.workloads[id].actual.Stopped?)
    ensures client.reliable ==> forall id :: id in store.workloads && store.workloads[id].service == s ==>
      Underway(store.workloads[id])
    ensures PassedOver(s, old(store.workloads), store.workloads, ws, stretches)
    ensures client.trace == old(client.trace) + Flatten(stretches)
  {
    hide Run, LawfulRun, Sound, Executed, Underway, HandledBy, Flatten;
    store.TablesKeyed();
    ghost var rows := store.workloads;
    var listed := store.ListWorkloadsByService(s);
    ws, stretches := listed, [];
    NoStretches();
    SameRowExecuted(rows);
    for k := 0 to |listed|
      invariant store.Valid() && store.origin == old(store.origin) && store.services == old(store.services)
      invariant Grew(old(store.log), store.log, EXECUTOR_KINDS)
      invariant ExecutedWithin(rows, store.workloads, s)
      invariant forall j :: k <= j < |ws| ==> store.workloads[ws[j].id] == ws[j]
      invariant client.reliable ==> forall j :: 0 <= j < k ==>
        && (store.workloads[ws[j].id].desired.Stopped? ==> store.workloads[ws[j].id].actual.Stopped?)
        && Underway(store.workloads[ws[j].id])
      invariant |stretches| == k && client.trace == old(client.trace) + Flatten(stretches)
      invariant forall j :: 0 <= j < k ==> HandledBy(ws[j], store.workloads[ws[j].id], stretches[j])
    {
      ghost var calls := ExecuteOne(store, client, listed[k]);
      FlattenSnoc(stretches, calls);
      stretches := stretches + [calls];
    }
    forall id | client.reliable && id in store.workloads && rows[id].service == s
      ensures store.workloads[id].desired.Stopped? ==> store.workloads[id].actual.Stopped?
      ensures Underway(store.workloads[id])
    {
      assert rows[id] in ws;
    }
    ExecutedKeepsService(rows, store.workloads);
  }

  const SCHEDULING_KINDS := {KReserve, KRunning, KFail, KStop, KEnvironment}

  /** A row left without a place fits on no ready node. */
  ghost predicate LeftOver(w: Workload, nodes: NodeRows) {
    w.desired.Pending? ==> !Placeable(w, nodes)
  }

  lemma SmoothIsQuiet(s: ServiceId, t: Cluster, start: seq<Event>, before: seq<Event>, after: seq<Event>)
    requires start <= before <= after && SmoothSince(s, t, after, |start|)
    ensures QuietSince(t, after, |before|) && Roomy(s, Run(t, before))
  {
    hide Run, Roomy;
    SmoothCut(s, t, before, after, |start|);
  }

  lemma RoomForIt(s: ServiceId, t: Cluster, id: WorkloadId)
    requires Roomy(s, t) && id in t.workloads && t.workloads[id].service == s && t.workloads[id].desired.Pending?
    ensures Placeable(t.workloads[id], t.nodes)
  {
  }

  lemma StillLeftOver(a: Workload, b: Workload, before: NodeRows, after: NodeRows)
    requires LeftOver(a, before) && Tighter(before, after) && (b.desired.Pending? ==> b == a)
    ensures LeftOver(b, after)
  {
    if b.desired.Pending? {
      StillUnplaceable(b, before, after);
    }
  }

  lemma NotWaiting(w: Workload, nodes: NodeRows)
    requires !w.desired.Pending?
    ensures LeftOver(w, nodes)
  {
  }

  lemma CalmPass(t: Cluster, before: seq<Event>, after: seq<Event>)
    requires before <= after && CalmSince(t, after, |before|)
    ensures Tighter(Run(t, before).nodes, Run(t, after).nodes) && QuietSince(t, after, |before|)
  {
    hide Run, Tighter, CalmSince, QuietSince;
    CalmCut(t, after, |before|, |after|);
    CalmTightens(t, after, |before|, |after|);
    assert after[..|before|] == before && after[..|after|] == after;
  }

  /** Rows of other services are as before, and rows that still want a place have not changed at all. */
  ghost predicate ScheduledWithin(before: Rows, after: Rows, s: ServiceId) {
    && before.Keys == after.Keys
    && forall id :: id in before ==>
         && (before[id].service != s ==> after[id] == before[id])
         && after[id].service == before[id].service
         && (after[id].desired.Pending? ==> after[id] == before[id])
         && (after[id].desired.Stopped? ==> before[id].desired.Stopped?)
  }

  /** What one iteration of the scheduling loop, on listed row `w`, makes of the rows. */
  ghost predicate OneScheduled(before: Rows, after: Rows, s: ServiceId, w: Workload) {
    && ScheduledWithin(before, after, s)
    && (forall id :: id in before && id != w.id && before[id].desired.Pending? ==> after[id] == before[id])
    && (forall id :: id in before && Up(before[id]) ==> Up(after[id]))
  }

  lemma NothingScheduled(rows: Rows, s: ServiceId, w: Workload)
    ensures OneScheduled(rows, rows, s, w)
  {
  }

  lemma PlacedIsScheduled(rows: Rows, after: Rows, s: ServiceId, w: Workload)
    requires w.service == s && w.id in rows && rows[w.id] == w && w.desired.Pending? && w.actual.Pending?
    requires PlacedFrom(after, rows, w)
    ensures OneScheduled(rows, after, s, w)
  {
  }

  lemma ExecutedIsScheduled(rows: Rows, mid: Rows, after: Rows, s: ServiceId, w: Workload)
    requires OneScheduled(rows, mid, s, w) && ExecutedWithin(mid, after, s)
    ensures OneScheduled(rows, after, s, w)
  {
    forall id | id in mid ensures ExecutedKeeps(mid[id], after[id]) {
      RowExecuted(mid[id], after[id]);
    }
    hide Executed, Up;
  }

  /** What the executor leaves of a row in any case. */
  predicate ExecutedKeeps(a: Workload, b: Workload) {
    && b.service == a.service && b.desired == a.desired
    && (a.desired.Pending? ==> b == a) && (Up(a) ==> Up(b))
  }

  lemma RowExecuted(a: Workload, b: Workload)
    requires Executed(a, b)
    ensures ExecutedKeeps(a, b)
  {
  }

  /** The executor passed over the service, making these requests. */
  ghost predicate PassMade(s: ServiceId, before: Rows, after: Rows, calls: seq<Answer>) {
    exists ws, stretches :: PassedOver(s, before, after, ws, stretches) && calls == Flatten(stretches)
  }

  /** The scheduler assigned `w` to the best place there was, and the executor passed over the service. */
  ghost predicate PlacedAndPassed(s: ServiceId, w: Workload, before: Cluster, after: Rows, calls: seq<Answer>) {
    exists mid: Rows :: PlacedFrom(mid, before.workloads, w) && BestPlace(w, before.nodes, mid[w.id].node.value) &&
                  PassMade(s, mid, after, calls)
  }

  /**
    The turn of listed row `w` in the scheduling loop. Only a pending row has one. If it still wants a place it
    gets the best, or nothing further happens for it; and a row that has a place makes the executor pass over
    the whole service, whatever became of earlier turns.
   */
  ghost predicate Turn(s: ServiceId, w: Workload, before: Cluster, after: Cluster, calls: seq<Answer>) {
    if w.actual != Pending then after == before && calls == []
    else if w.desired != Pending then PassMade(s, before.workloads, after.workloads, calls)
    else if w.id in after.workloads && after.workloads[w.id].desired == Pending then
      after.workloads == before.workloads && calls == [] && NoPlace(w, before.nodes, after.nodes)
    else PlacedAndPassed(s, w, before, after.workloads, calls)
  }

  /** One iteration of the scheduling loop, on a row that is either still as listed or no longer wants a place. */
  method ScheduleOne(store: Postgres, client: NodeClient, s: ServiceId, w: Workload) returns (ghost calls: seq<Answer>)
    requires store.Valid()
    requires w.service == s && w.id in store.workloads && store.workloads[w.id].service == s
    requires w.desired.Pending? ==> store.workloads[w.id] == w
    modifies store, client
    ensures store.Valid() && store.origin == old(store.origin) && store.services == old(store.services)
    ensures Grew(old(store.log), store.log, SCHEDULING_KINDS)
    ensures OneScheduled(old(store.workloads), store.workloads, s, w)
    ensures CalmSince(store.origin, store.log, |old(store.log)|) && w.desired.Pending? && w.actual.Pending? ==>
      LeftOver(store.workloads[w.id], store.nodes)
    ensures client.reliable && w.actual.Pending? && !store.workloads[w.id].desired.Pending? ==>
      Up(store.workloads[w.id])
    ensures w.desired.Pending? && w.actual.Pending? && QuietSince(store.origin, store.log, |old(store.log)|) ==>
      (Placeable(w, old(store.nodes)) ==> !store.workloads[w.id].desired.Pending?)
    ensures client.trace == old(client.trace) + calls && Turn(s, w, old(store.Now()), store.Now(), calls)
  {
    hide Run, LawfulRun, Sound, BestPlace, Placeable, Tighter, CalmSince, QuietSince, OneScheduled, Lifecycle;
    hide PassedOver, Flatten, NoPlace;
    ghost var rows := store.workloads;
    calls := [];
    NothingScheduled(rows, s, w);
    if !w.actual.Pending? { return; }
    if w.desired.Pending? {
      var scheduled := ScheduleWorkload(store, w);
      if !scheduled {
        if CalmSince(store.origin, store.log, |old(store.log)|) {
          CalmPass(store.origin, old(store.log), store.log);
          StillUnplaceable(w, old(store.nodes), store.nodes);
        }
        return;
      }
      PlacedIsScheduled(rows, store.workloads, s, w);
    }
    ghost var mid := store.workloads;
    ghost var ws, stretches := ExecuteScheduledWorkloads(store, client, s);
    calls := Flatten(stretches);
    assert PassMade(s, mid, store.workloads, calls);
    ExecutedIsScheduled(rows, mid, store.workloads, s, w);
    store.RowSound(w.id);
    assert client.reliable ==> Up(store.workloads[w.id]) || store.workloads[w.id].desired.Pending? by {
      UnderwayIsUp(store.workloads[w.id]);
    }
  }

  lemma UnderwayIsUp(w: Workload)
    requires Lifecycle(w)
    ensures Underway(w) ==> Up(w) || w.desired.Pending?
  {
  }

  // ---- The scheduling loop ----

  /** After `k` rows: those still to come are as listed if they want a place, and what was up is up. */
  ghost predicate Going(ws: seq<Workload>, k: nat, rows: Rows, now: Rows, s: ServiceId)
    requires k <= |ws|
  {
    && ScheduledWithin(rows, now, s)
    && forall j :: 0 <= j < |ws| ==>
         && ws[j].id in now && now[ws[j].id].service == s
         && (k <= j && ws[j].desired.Pending? ==> now[ws[j].id] == ws[j])
         && (now[ws[j].id].desired.Pending? ==> ws[j].desired.Pending?)
         && (Up(ws[j]) ==> Up(now[ws[j].id]))
  }

  /** None of the first `k` rows is left over. */
  ghost predicate NoneLeft(ws: seq<Workload>, k: nat, t: Cluster)
    requires k <= |ws|
  {
    forall j :: 0 <= j < k ==> ws[j].id in t.workloads && LeftOver(t.workloads[ws[j].id], t.nodes)
  }

  /** Those of the first `k` rows that were pending are up. */
  ghost predicate Started(ws: seq<Workload>, k: nat, rows: Rows)
    requires k <= |ws|
  {
    forall j :: 0 <= j < k && ws[j].actual.Pending? ==> ws[j].id in rows && Up(rows[ws[j].id])
  }

  lemma Begins(ws: seq<Workload>, rows: Rows, nodes: NodeRows, s: ServiceId)
    requires Lists(ws, rows, s)
    ensures Going(ws, 0, rows, rows, s) && NoneLeft(ws, 0, Cluster(nodes, rows)) && Started(ws, 0, rows)
  {
  }

  lemma GoesOn(ws: seq<Workload>, k: nat, rows: Rows, before: Rows, after: Rows, s: ServiceId)
    requires Lists(ws, rows, s) && k < |ws|
    requires Going(ws, k, rows, before, s) && OneScheduled(before, after, s, ws[k])
    ensures Going(ws, k + 1, rows, after, s)
  {
    hide Up;
  }

  lemma LeftOn(ws: seq<Workload>, k: nat, before: Cluster, after: Cluster, s: ServiceId)
    requires k < |ws| && NoneLeft(ws, k, before) && OneScheduled(before.workloads, after.workloads, s, ws[k])
    requires Tighter(before.nodes, after.nodes)
    requires ws[k].id in after.workloads && LeftOver(after.workloads[ws[k].id], after.nodes)
    ensures NoneLeft(ws, k + 1, after)
  {
    hide LeftOver, Tighter, Up;
    forall j | 0 <= j < k ensures ws[j].id in after.workloads && LeftOver(after.workloads[ws[j].id], after.nodes) {
      StillLeftOver(before.workloads[ws[j].id], after.workloads[ws[j].id], before.nodes, after.nodes);
    }
  }

  lemma StartsOn(ws: seq<Workload>, k: nat, before: Rows, after: Rows, s: ServiceId)
    requires k < |ws| && Started(ws, k, before) && OneScheduled(before, after, s, ws[k])
    requires ws[k].actual.Pending? ==> ws[k].id in after && Up(after[ws[k].id])
    ensures Started(ws, k + 1, after)
  {
    hide Up;
  }

  lemma GoneThrough(ws: seq<Workload>, rows: Rows, t: Cluster, s: ServiceId)
    requires Lists(ws, rows, s) && Keyed(rows) && Going(ws, |ws|, rows, t.workloads, s)
    ensures NoneLeft(ws, |ws|, t) ==>
      forall id :: id in t.workloads && t.workloads[id].service == s ==> LeftOver(t.workloads[id], t.nodes)
    ensures Started(ws, |ws|, t.workloads) && AllRising(rows, s) ==> AllUp(t.workloads, s)
  {
    hide LeftOver, Up, Rising;
    forall id | id in t.workloads && t.workloads[id].service == s
      ensures NoneLeft(ws, |ws|, t) ==> LeftOver(t.workloads[id], t.nodes)
      ensures Started(ws, |ws|, t.workloads) && AllRising(rows, s) ==> Up(t.workloads[id])
    {
      assert rows[id] in ws;
      var j :| 0 <= j < |ws| && ws[j] == rows[id];
      RisingIsUpOrPending(ws[j]);
    }
  }

  lemma RisingIsUpOrPending(w: Workload)
    ensures Rising(w) ==> Up(w) || w.actual.Pending?
  {
  }

  /** Row `w` had its turn between two moments of the log `es`. */
  ghost predicate TurnAt(s: ServiceId, t: Cluster, es: seq<Event>, w: Workload, from: nat, to: nat,
                         calls: seq<Answer>) {
    from <= to <= |es| && Turn(s, w, Run(t, es[..from]), Run(t, es[..to]), calls)
  }

  /** Every row of the listing had its turn, one after the other from moment `at[0]` to the end of the log. */
  ghost predicate Turns(s: ServiceId, t: Cluster, es: seq<Event>, ws: seq<Workload>, at: seq<nat>,
                        stretches: seq<seq<Answer>>) {
    && |at| == |ws| + 1 && |stretches| == |ws| && at[|ws|] == |es|
    && forall k :: 0 <= k < |ws| ==> TurnAt(s, t, es, ws[k], at[k], at[k + 1], stretches[k])
  }

  lemma NoTurns(s: ServiceId, t: Cluster, es: seq<Event>)
    ensures Turns(s, t, es, [], [|es|], [])
  {
  }

  lemma TurnStays(s: ServiceId, t: Cluster, before: seq<Event>, after: seq<Event>, w: Workload, from: nat, to: nat,
                  calls: seq<Answer>)
    requires before <= after && TurnAt(s, t, before, w, from, to, calls)
    ensures TurnAt(s, t, after, w, from, to, calls)
  {
    hide Run, Turn;
    assert after[..from] == before[..from] && after[..to] == before[..to];
  }

  lemma TurnNow(s: ServiceId, t: Cluster, before: seq<Event>, after: seq<Event>, w: Workload, calls: seq<Answer>)
    requires before <= after && Turn(s, w, Run(t, before), Run(t, after), calls)
    ensures TurnAt(s, t, after, w, |before|, |after|, calls)
  {
    hide Run, Turn;
    assert after[..|before|] == before && after[..|after|] == after;
  }

  lemma TurnsOn(s: ServiceId, t: Cluster, before: seq<Event>, after: seq<Event>, ws: seq<Workload>, at: seq<nat>,
                stretches: seq<seq<Answer>>, w: Workload, calls: seq<Answer>)
    requires before <= after && Turns(s, t, before, ws, at, stretches)
    requires Turn(s, w, Run(t, before), Run(t, after), calls)
    ensures Turns(s, t, after, ws + [w], at + [|after|], stretches + [calls])
  {
    hide Run, Turn, TurnAt;
    TurnNow(s, t, before, after, w, calls);
    forall k | 0 <= k < |ws| ensures TurnAt(s, t, after, ws[k], at[k], at[k + 1], stretches[k]) {
      TurnStays(s, t, before, after, ws[k], at[k], at[k + 1], stretches[k]);
    }
  }

  /**
    Walks one listing while scheduling and executing change rows. Every row handed to the scheduler is still
    unassigned and still wants a place (the precondition of `ScheduleWorkload`). A calm pass, in which nothing
    was released and nodes did no more than send heartbeats, leaves only workloads that fit on no ready node.
    With reliable agents and room throughout, a smooth pass gets everything running.
   */
  method SchedulePendingWorkloads(store: Postgres, client: NodeClient, s: ServiceId)
    returns (ghost ws: seq<Workload>, ghost at: seq<nat>, ghost stretches: seq<seq<Answer>>)
    requires store.Valid()
    modifies store, client
    ensures store.Valid() && store.origin == old(store.origin) && store.services == old(store.services)
    ensures Grew(old(store.log), store.log, SCHEDULING_KINDS)
    ensures ScheduledWithin(old(store.workloads), store.workloads, s)
    ensures CalmSince(store.origin, store.log, |old(store.log)|) ==>
      forall id :: id in store.workloads && store.workloads[id].service == s ==>
        LeftOver(store.workloads[id], store.nodes)
    ensures client.reliable && SmoothSince(s, store.origin, store.log, |old(store.log)|) ==>
      (AllRising(old(store.workloads), s) ==> AllUp(store.workloads, s))
    ensures Lists(ws, old(store.workloads), s) && Turns(s, store.origin, store.log, ws, at, stretches)
    ensures at[0] == |old(store.log)| && client.trace == old(client.trace) + Flatten(stretches)
  {
    hide Run, LawfulRun, Sound, LeftOver, CalmSince, Tighter, QuietSince, SmoothSince, Roomy, Up;
    hide OneScheduled, NoneLeft, Started, AllUp, AllRising, Lists, Lifecycle, ScheduledWithin, Turn, Turns, Flatten;
    store.TablesKeyed();
    ghost var rows, l0 := store.workloads, store.log;
    var listed := store.ListWorkloadsByService(s);
    ws, at, stretches := listed, [|store.log|], [];
    NoTurns(s, store.origin, store.log);
    NoStretches();
    Begins(ws, rows, store.nodes, s);
    RowsPending(ws, store, s);
    for k := 0 to |listed|
      invariant store.Valid() && store.origin == old(store.origin) && store.services == old(store.services)
      invariant Grew(l0, store.log, SCHEDULING_KINDS)
      invariant Going(ws, k, rows, store.workloads, s)
      invariant CalmSince(store.origin, store.log, |l0|) ==> NoneLeft(ws, k, store.Now())
      invariant client.reliable && SmoothSince(s, store.origin, store.log, |l0|) ==> Started(ws, k, store.workloads)
      invariant Turns(s, store.origin, store.log, ws[..k], at, stretches) && |at| > 0 && at[0] == |l0|
      invariant client.trace == old(client.trace) + Flatten(stretches)
    {
      ghost var before, log := store.Now(), store.log;
      ghost var calls := ScheduleOne(store, client, s, listed[k]);
      TurnsOn(s, store.origin, log, store.log, ws[..k], at, stretches, ws[k], calls);
      assert ws[..k + 1] == ws[..k] + [ws[k]];
      FlattenSnoc(stretches, calls);
      at, stretches := at + [|store.log|], stretches + [calls];
      GoesOn(ws, k, rows, before.workloads, store.workloads, s);
      if CalmSince(store.origin, store.log, |l0|) {
        CalmCut(store.origin, store.log, |l0|, |log|);
        assert store.log[..|log|] == log;
        CalmPass(store.origin, log, store.log);
        if !ws[k].desired.Pending? { NotWaiting(store.workloads[ws[k].id], store.nodes); }
        LeftOn(ws, k, before, store.Now(), s);
      }
      if client.reliable && SmoothSince(s, store.origin, store.log, |l0|) {
        SmoothCut(s, store.origin, log, store.log, |l0|);
        SmoothIsQuiet(s, store.origin, l0, log, store.log);
        if ws[k].desired.Pending? { RoomForIt(s, before, ws[k].id); }
        StartsOn(ws, k, before.workloads, store.workloads, s);
      }
    }
    assert ws[..|ws|] == ws;
    GoneThrough(ws, rows, store.Now(), s);
    ScheduledThrough(ws, rows, store.workloads, s);
  }

  /** A row that waits for a place is pending. */
  lemma RowsPending(ws: seq<Workload>, store: Postgres, s: ServiceId)
    requires store.Valid() && Lists(ws, store.workloads, s)
    ensures forall j :: 0 <= j < |ws| && ws[j].desired.Pending? ==> ws[j].actual.Pending?
  {
    forall j | 0 <= j < |ws| && ws[j].desired.Pending? ensures ws[j].actual.Pending? {
      store.RowSound(ws[j].id);
    }
  }

  lemma ScheduledThrough(ws: seq<Workload>, rows: Rows, now: Rows, s: ServiceId)
    requires Going(ws, |ws|, rows, now, s)
    ensures ScheduledWithin(rows, now, s)
  {
  }
}
