/**
  The node phase of a cycle: recover the work of unhealthy nodes, repair the drift of ready ones.
 */
module Nodes {
  import opened Model
  import opened Ledger
  import opened Store
  import opened Execution
  import opened Drift

  type Listings = map<NodeId, seq<Container>>

  /** No node reports the container of `w` in a live state. */
  ghost predicate StaysDown(w: Workload, listings: Listings) {
    forall n :: n in listings ==> !ReportedAlive(w, listings[n])
  }

  predicate Stranded(nodes: NodeRows, w: Workload) {
    w.node.Some? && w.node.value in nodes && nodes[w.node.value].status.Unhealthy?
  }

  /** No ready node reports, as alive, a container of a workload that is assigned to an unhealthy node. */
  ghost predicate NoneStrayed(nodes: NodeRows, rows: Rows, listings: Listings) {
    forall id, m :: id in rows && m in nodes && nodes[m].status.Ready? && m in listings ==>
      (Stranded(nodes, rows[id]) ==> !ReportedAlive(rows[id], listings[m]))
  }

  /** What the step for node `n` makes of a row. */
  ghost predicate NodeStepped(a: Workload, b: Workload, n: NodeEntry, listings: Listings) {
    if n.row.status.Unhealthy? then b == ResetIfOn(a, n.id)
    else if n.row.status.Ready? && n.id in listings then Repaired(a, b, n.id, listings[n.id])
    else b == a
  }

  /** What the node phase may make of a row. */
  ghost predicate NodePhased(a: Workload, b: Workload, listings: Listings) {
    && b.service == a.service
    && ((b.container == a.container && b.node == a.node) || b.container.None?)
    && (b.desired.Stopped? ==> a.desired.Stopped?)
    && (!InUse(a.actual) && StaysDown(a, listings) ==> !InUse(b.actual))
  }

  lemma NodePhasedNext(a: Workload, mid: Workload, b: Workload, listings: Listings, n: NodeEntry)
    requires NodePhased(a, mid, listings)
    requires NodeStepped(mid, b, n, listings)
    ensures NodePhased(a, b, listings)
  {
    if StaysDown(a, listings) && n.id in listings {
      assert !ReportedAlive(a, listings[n.id]);
    }
  }

  /** No container of a workload assigned to node `n` is reported alive. */
  ghost predicate NoneAlive(rows: Rows, n: NodeId, cs: seq<Container>) {
    forall id :: id in rows && rows[id].node == Some(n) ==> !ReportedAlive(rows[id], cs)
  }

  lemma NoneAliveDuringPhase(nodes: NodeRows, a: Rows, b: Rows, listings: Listings, n: NodeId, m: NodeId)
    requires a.Keys == b.Keys && NoneStrayed(nodes, a, listings)
    requires forall id :: id in a ==> NodePhased(a[id], b[id], listings)
    requires n in nodes && nodes[n].status.Unhealthy? && m in nodes && nodes[m].status.Ready? && m in listings
    ensures NoneAlive(b, n, listings[m])
  {
    forall id | id in b && b[id].node == Some(n) && ReportedAlive(b[id], listings[m]) ensures false {
      assert ReportedAlive(a[id], listings[m]);
    }
  }

  /** One repair of the node, with these requests. */
  ghost predicate RepairMade(before: Rows, after: Rows, n: NodeId, cs: seq<Container>, calls: seq<Answer>) {
    exists stretches :: AllInTurn(before, after, n, cs, stretches) && calls == Flatten(stretches)
  }

  /**
    The turn of listed node `n`: its work is recovered if it is unhealthy, its drift repaired if it is ready and
    can be reached, and otherwise nothing happens to any row.
   */
  ghost predicate NodeTurn(n: NodeEntry, before: Rows, after: Rows, listings: Listings, calls: seq<Answer>) {
    && before.Keys == after.Keys
    && (forall id :: id in before ==> NodeStepped(before[id], after[id], n, listings))
    && if n.row.status == Ready && n.id in listings then RepairMade(before, after, n.id, listings[n.id], calls)
       else calls == []
  }

  /** Node `n` had its turn between two moments of the log `es`. */
  ghost predicate NodeTurnAt(t: Cluster, es: seq<Event>, n: NodeEntry, from: nat, to: nat, listings: Listings,
                             calls: seq<Answer>) {
    from <= to <= |es| && NodeTurn(n, Run(t, es[..from]).workloads, Run(t, es[..to]).workloads, listings, calls)
  }

  /** Every listed node had its turn, one after the other from moment `at[0]` to the end of the log. */
  ghost predicate NodeTurns(t: Cluster, es: seq<Event>, ns: seq<NodeEntry>, at: seq<nat>, listings: Listings,
                            stretches: seq<seq<Answer>>) {
    && |at| == |ns| + 1 && |stretches| == |ns| && at[|ns|] == |es|
    && forall k :: 0 <= k < |ns| ==> NodeTurnAt(t, es, ns[k], at[k], at[k + 1], listings, stretches[k])
  }

  lemma NoNodeTurns(t: Cluster, es: seq<Event>, listings: Listings)
    ensures NodeTurns(t, es, [], [|es|], listings, [])
  {
  }

  lemma NodeTurnStays(t: Cluster, before: seq<Event>, after: seq<Event>, n: NodeEntry, from: nat, to: nat,
                      listings: Listings, calls: seq<Answer>)
    requires before <= after && NodeTurnAt(t, before, n, from, to, listings, calls)
    ensures NodeTurnAt(t, after, n, from, to, listings, calls)
  {
    hide Run, NodeTurn;
    assert after[..from] == before[..from] && after[..to] == before[..to];
  }

  lemma NodeTurnNow(t: Cluster, before: seq<Event>, after: seq<Event>, n: NodeEntry, listings: Listings,
                    calls: seq<Answer>)
    requires before <= after && NodeTurn(n, Run(t, before).workloads, Run(t, after).workloads, listings, calls)
    ensures NodeTurnAt(t, after, n, |before|, |after|, listings, calls)
  {
    hide Run, NodeTurn;
    assert after[..|before|] == before && after[..|after|] == after;
  }

  lemma NodeTurnsOn(t: Cluster, before: seq<Event>, after: seq<Event>, ns: seq<NodeEntry>, at: seq<nat>,
                    listings: Listings, stretches: seq<seq<Answer>>, n: NodeEntry, calls: seq<Answer>)
    requires before <= after && NodeTurns(t, before, ns, at, listings, stretches)
    requires NodeTurn(n, Run(t, before).workloads, Run(t, after).workloads, listings, calls)
    ensures NodeTurns(t, after, ns + [n], at + [|after|], listings, stretches + [calls])
  {
    hide Run, NodeTurn, NodeTurnAt;
    NodeTurnNow(t, before, after, n, listings, calls);
    forall k | 0 <= k < |ns| ensures NodeTurnAt(t, after, ns[k], at[k], at[k + 1], listings, stretches[k]) {
      NodeTurnStays(t, before, after, ns[k], at[k], at[k + 1], listings, stretches[k]);
    }
  }

  const NODE_KINDS := {KRecover, KFail, KActual, KEnvironment}

  /** One node: recover its work if it is unhealthy, repair drift if it is ready. */
  method NodeStep(store: Postgres, client: NodeClient, n: NodeEntry) returns (ghost calls: seq<Answer>)
    requires store.Valid()
    requires forall m :: m in client.listings ==> UniqueListing(client.listings[m])
    modifies store, client
    ensures store.Valid() && store.origin == old(store.origin) && store.services == old(store.services)
    ensures Grew(old(store.log), store.log, NODE_KINDS)
    ensures store.workloads.Keys == old(store.workloads).Keys
    ensures forall id :: id in store.workloads ==>
      NodeStepped(old(store.workloads)[id], store.workloads[id], n, client.listings)
    ensures n.row.status.Unhealthy? ==> OccupyingOn(store.workloads, n.id) == {}
    ensures forall m :: OccupyingOn(old(store.workloads), m) == {} ==>
      OccupyingOn(store.workloads, m) == {} ||
      (n.row.status.Ready? && n.id in client.listings && !NoneAlive(old(store.workloads), m, client.listings[n.id]))
    ensures client.trace == old(client.trace) + calls
    ensures NodeTurn(n, old(store.workloads), store.workloads, client.listings, calls)
  {
    hide Run, LawfulRun, Sound, Repaired, NoneAlive, AllInTurn, Flatten;
    calls := [];
    if n.row.status.Unhealthy? {
      store.RecoverWorkloadsFromNode(n.id);
      RecoveredRows(old(store.workloads), n.id);
      return;
    }
    if !n.row.status.Ready? { return; }
    NoStretches();
    var ok, stretches := ReconcileNode(store, client, n.id);
    calls := Flatten(stretches);
    if ok {
      forall m | OccupyingOn(old(store.workloads), m) == {} && NoneAlive(old(store.workloads), m, client.listings[n.id])
        ensures OccupyingOn(store.workloads, m) == {}
      {
        RepairedRows(old(store.workloads), store.workloads, n.id, client.listings[n.id], m);
      }
    }
  }

  lemma RecoveredRows(rows: Rows, n: NodeId)
    ensures var after := map id | id in rows :: ResetIfOn(rows[id], n);
      && OccupyingOn(after, n) == {}
      && forall m :: OccupyingOn(rows, m) == {} ==> OccupyingOn(after, m) == {}
  {
    var after := map id | id in rows :: ResetIfOn(rows[id], n);
    forall m | m != n ensures OccupyingOn(after, m) <= OccupyingOn(rows, m) {
    }
  }

  lemma RepairedRows(before: Rows, after: Rows, n: NodeId, cs: seq<Container>, m: NodeId)
    requires before.Keys == after.Keys && OccupyingOn(before, m) == {} && NoneAlive(before, m, cs)
    requires forall id :: id in after ==> Repaired(before[id], after[id], n, cs)
    ensures OccupyingOn(after, m) == {}
  {
    assert OccupyingOn(after, m) <= OccupyingOn(before, m);
  }

  /** Every node in turn, whether or not the nodes before it could be reached. */
  method NodePhase(store: Postgres, client: NodeClient, ns: seq<NodeEntry>)
    returns (ghost at: seq<nat>, ghost stretches: seq<seq<Answer>>)
    requires store.Valid() && ListsNodes(ns, store.nodes)
    requires forall m :: m in client.listings ==> UniqueListing(client.listings[m])
    modifies store, client
    ensures store.Valid() && store.origin == old(store.origin) && store.services == old(store.services)
    ensures Grew(old(store.log), store.log, NODE_KINDS)
    ensures store.workloads.Keys == old(store.workloads).Keys
    ensures forall id :: id in store.workloads ==>
      NodePhased(old(store.workloads)[id], store.workloads[id], client.listings)
    ensures NoneStrayed(old(store.nodes), old(store.workloads), client.listings) ==>
      forall n :: n in old(store.nodes) && old(store.nodes)[n].status.Unhealthy? ==>
        OccupyingOn(store.workloads, n) == {}
    ensures forall id :: id in store.workloads ==>
      (RowHealthy(old(store.workloads)[id], old(store.nodes), client.listings) ==>
         Fares(old(store.workloads)[id], store.workloads[id], old(store.nodes), true))
    ensures NodeTurns(store.origin, store.log, ns, at, client.listings, stretches) && at[0] == |old(store.log)|
    ensures client.trace == old(client.trace) + Flatten(stretches)
  {
    hide Run, LawfulRun, Sound, NodePhased, NoneStrayed, NoneAlive, NodeStepped, RowHealthy, Fares;
    hide NodeTurn, NodeTurns, Flatten, Reached;
    ghost var rows, nodes := store.workloads, store.nodes;
    at, stretches := [|store.log|], [];
    NoNodeTurns(store.origin, store.log, client.listings);
    NoStretches();
    PhasedAtFirst(rows, nodes, client.listings, ns);
    for k := 0 to |ns|
      invariant store.Valid() && store.origin == old(store.origin) && store.services == old(store.services)
      invariant Grew(old(store.log), store.log, NODE_KINDS)
      invariant store.workloads.Keys == rows.Keys
      invariant forall id :: id in rows ==> NodePhased(rows[id], store.workloads[id], client.listings)
      invariant NoneStrayed(nodes, rows, client.listings) ==>
        forall j :: 0 <= j < k && ns[j].row.status.Unhealthy? ==> OccupyingOn(store.workloads, ns[j].id) == {}
      invariant forall id :: id in rows ==>
        (RowHealthy(rows[id], nodes, client.listings) ==>
           Fares(rows[id], store.workloads[id], nodes, Reached(ns, k, rows[id])))
      invariant NodeTurns(store.origin, store.log, ns[..k], at, client.listings, stretches)
      invariant |at| > 0 && at[0] == |old(store.log)| && client.trace == old(client.trace) + Flatten(stretches)
    {
      ghost var mid, log := store.workloads, store.log;
      ghost var calls := NodeStep(store, client, ns[k]);
      NodeTurnsOn(store.origin, log, store.log, ns[..k], at, client.listings, stretches, ns[k], calls);
      assert ns[..k + 1] == ns[..k] + [ns[k]];
      FlattenSnoc(stretches, calls);
      at, stretches := at + [|store.log|], stretches + [calls];
      if NoneStrayed(nodes, rows, client.listings) && ns[k].row.status.Ready? && ns[k].id in client.listings {
        forall j | 0 <= j < k && ns[j].row.status.Unhealthy? ensures OccupyingOn(store.workloads, ns[j].id) == {} {
          NoneAliveDuringPhase(nodes, rows, mid, client.listings, ns[j].id, ns[k].id);
        }
      }
      PhasedNext(rows, mid, store.workloads, nodes, client.listings, ns, k);
    }
    assert ns[..|ns|] == ns;
    forall id | id in rows && RowHealthy(rows[id], nodes, client.listings)
      ensures Fares(rows[id], store.workloads[id], nodes, true)
    {
      FaredAll(rows[id], store.workloads[id], nodes, client.listings, ns);
    }
    forall n | n in nodes && nodes[n].status.Unhealthy? && NoneStrayed(nodes, rows, client.listings)
      ensures OccupyingOn(store.workloads, n) == {}
    {
      assert NodeEntry(n, nodes[n]) in ns;
    }
  }

  lemma PhasedNext(rows: Rows, mid: Rows, now: Rows, nodes: NodeRows, listings: Listings, ns: seq<NodeEntry>, k: nat)
    requires ListsNodes(ns, nodes) && k < |ns| && rows.Keys == mid.Keys == now.Keys
    requires forall id :: id in rows ==> NodePhased(rows[id], mid[id], listings)
    requires forall id :: id in rows ==> NodeStepped(mid[id], now[id], ns[k], listings)
    requires forall id :: id in rows ==>
      (RowHealthy(rows[id], nodes, listings) ==> Fares(rows[id], mid[id], nodes, Reached(ns, k, rows[id])))
    ensures forall id :: id in rows ==> NodePhased(rows[id], now[id], listings)
    ensures forall id :: id in rows ==>
      (RowHealthy(rows[id], nodes, listings) ==> Fares(rows[id], now[id], nodes, Reached(ns, k + 1, rows[id])))
  {
    hide NodePhased, NodeStepped, RowHealthy, Fares, Reached;
    forall id | id in rows
      ensures NodePhased(rows[id], now[id], listings)
      ensures RowHealthy(rows[id], nodes, listings) ==> Fares(rows[id], now[id], nodes, Reached(ns, k + 1, rows[id]))
    {
      NodePhasedNext(rows[id], mid[id], now[id], listings, ns[k]);
      if RowHealthy(rows[id], nodes, listings) {
        FaresOn(rows[id], mid[id], now[id], nodes, listings, ns, k);
      }
    }
  }

  lemma PhasedAtFirst(rows: Rows, nodes: NodeRows, listings: Listings, ns: seq<NodeEntry>)
    ensures forall id :: id in rows ==> NodePhased(rows[id], rows[id], listings)
    ensures forall id :: id in rows && RowHealthy(rows[id], nodes, listings) ==>
      Fares(rows[id], rows[id], nodes, Reached(ns, 0, rows[id]))
  {
  }

  // ---- Workloads that are well ----

  ghost predicate ShownRunning(cs: seq<Container>, c: ContainerId) {
    exists i :: 0 <= i < |cs| && cs[i].id == c && cs[i].status == "running"
  }

  predicate ReadyAndReporting(nodes: NodeRows, listings: Listings, m: NodeId) {
    m in nodes && nodes[m].status.Ready? && m in listings
  }

  /**
    The nodes agree with the row. An active workload with a container runs on a ready node that says so, and no
    other node lists it; a finished one is not reported alive; and what is on an unhealthy node is not in use,
    nor listed by another node.
   */
  ghost predicate RowHealthy(w: Workload, nodes: NodeRows, listings: Listings) {
    && (IsActive(w) && w.container.Some? ==>
          && w.node.Some? && ReadyAndReporting(nodes, listings, w.node.value)
          && ShownRunning(listings[w.node.value], w.container.value)
          && forall m :: ReadyAndReporting(nodes, listings, m) && w.node != Some(m) ==>
               !Listed(listings[m], w.container.value))
    && (!InUse(w.actual) && !w.desired.Stopped? ==>
          forall m :: ReadyAndReporting(nodes, listings, m) ==> !ReportedAlive(w, listings[m]))
    && (Stranded(nodes, w) ==>
          && !InUse(w.actual)
          && forall m :: ReadyAndReporting(nodes, listings, m) && w.container.Some? ==>
               !Listed(listings[m], w.container.value))
  }

  /** What becomes of a row that is well; `done` tells that its own node has been seen to. */
  predicate Fares(a: Workload, b: Workload, nodes: NodeRows, done: bool) {
    if IsActive(a) then
      if a.container.None? then b == a
      else
        && b == a.(actual := b.actual, held := b.held)
        && (b.actual == a.actual || b.actual.Running?) && (done ==> b.actual.Running?)
    else
      && b == a.(actual := b.actual, held := b.held)
      && (!a.desired.Stopped? || Stranded(nodes, a) ==> !InUse(b.actual))
  }

  predicate Reached(ns: seq<NodeEntry>, k: nat, w: Workload)
    requires k <= |ns|
  {
    exists j :: 0 <= j < k && w.node == Some(ns[j].id)
  }

  lemma FaresOn(a: Workload, mid: Workload, b: Workload, nodes: NodeRows, listings: Listings,
                ns: seq<NodeEntry>, k: nat)
    requires ListsNodes(ns, nodes) && k < |ns| && RowHealthy(a, nodes, listings)
    requires Fares(a, mid, nodes, Reached(ns, k, a)) && NodeStepped(mid, b, ns[k], listings)
    ensures Fares(a, b, nodes, Reached(ns, k + 1, a))
  {
    var n := ns[k];
    assert n.id in nodes && nodes[n.id] == n.row;
    if n.row.status.Ready? && n.id in listings {
      assert ReadyAndReporting(nodes, listings, n.id);
      if IsActive(a) && a.container.Some? {
        ActiveFares(a, mid, b, n, listings[n.id]);
      } else if !IsActive(a) && Stranded(nodes, a) {
        assert Foreign(mid, n.id, listings[n.id]);
      }
    }
  }

  lemma ActiveFares(a: Workload, mid: Workload, b: Workload, n: NodeEntry, cs: seq<Container>)
    requires IsActive(a) && a.container.Some? && mid == a.(actual := mid.actual, held := mid.held)
    requires a.node == Some(n.id) ==> ShownRunning(cs, a.container.value)
    requires a.node != Some(n.id) ==> !Listed(cs, a.container.value)
    requires Repaired(mid, b, n.id, cs)
    ensures b == a.(actual := b.actual, held := b.held)
    ensures if a.node == Some(n.id) then b.actual.Running? else b == mid
  {
    if a.node == Some(n.id) {
      var i :| 0 <= i < |cs| && cs[i].id == a.container.value && cs[i].status == "running";
      assert Agrees(b, cs) && Reads(b, cs[i].status);
    } else {
      assert Foreign(mid, n.id, cs);
    }
  }

  lemma FaredAll(a: Workload, b: Workload, nodes: NodeRows, listings: Listings, ns: seq<NodeEntry>)
    requires ListsNodes(ns, nodes) && RowHealthy(a, nodes, listings) && Fares(a, b, nodes, Reached(ns, |ns|, a))
    ensures Fares(a, b, nodes, true)
  {
    if IsActive(a) && a.container.Some? {
      assert NodeEntry(a.node.value, nodes[a.node.value]) in ns;
    }
  }

  /** What is up stays up, and what is not is started or waits, once every node has been seen to. */
  lemma FaredWell(a: Workload, b: Workload, nodes: NodeRows)
    requires Lifecycle(a) && Fares(a, b, nodes, true)
    ensures Up(a) ==> Up(b)
    ensures Rising(b)
  {
  }
}
