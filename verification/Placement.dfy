/**
  The scheduler: filter the nodes, take the best scoring one, reserve it.
 */
module Placement {
  import opened Model
  import opened Ledger
  import opened Store

  predicate Suits(w: Workload, n: Node) {
    n.status.Ready? && n.Fits(w.cpu, w.memory)
  }

  /** The share of CPU plus the share of memory that stays free once the workload is on the node. */
  function ScoreNode(w: Workload, n: Node): real {
    (n.cpuCapacity - n.cpuAllocated - w.cpu) as real / n.cpuCapacity as real
    + (n.memoryCapacity - n.memoryAllocated - w.memory) as real / n.memoryCapacity as real
  }

  method FilterNodes(w: Workload, ns: seq<NodeEntry>) returns (candidates: seq<NodeEntry>)
    ensures forall n :: n in candidates <==> n in ns && Suits(w, n.row)
    ensures (forall i, j :: 0 <= i < j < |ns| ==> ns[i].id < ns[j].id) ==>
            (forall i, j :: 0 <= i < j < |candidates| ==> candidates[i].id < candidates[j].id)
  {
    candidates := [];
    for k := 0 to |ns|
      invariant forall n :: n in candidates <==> n in ns[..k] && Suits(w, n.row)
      invariant (forall i, j :: 0 <= i < j < |ns| ==> ns[i].id < ns[j].id) ==>
                (forall i, j :: 0 <= i < j < |candidates| ==> candidates[i].id < candidates[j].id)
    {
      assert ns[..k + 1] == ns[..k] + [ns[k]];
      var n := ns[k].row;
      if !n.status.Ready? { continue; }
      var availableCpu := n.cpuCapacity - n.cpuAllocated;
      var availableMemory := n.memoryCapacity - n.memoryAllocated;
      if availableCpu < w.cpu { continue; }
      if availableMemory < w.memory { continue; }
      candidates := candidates + [ns[k]];
    }
  }

  /** With the workload on it, the occupied shares of `a` add up to no more than those of `b` would. */
  predicate NoFuller(w: Workload, a: Node, b: Node) {
    (a.cpuAllocated + w.cpu) as real / a.cpuCapacity as real
    + (a.memoryAllocated + w.memory) as real / a.memoryCapacity as real
    <= (b.cpuAllocated + w.cpu) as real / b.cpuCapacity as real
    + (b.memoryAllocated + w.memory) as real / b.memoryCapacity as real
  }

  lemma ShareLeft(capacity: pos, used: int)
    ensures (capacity - used) as real / capacity as real == 1.0 - used as real / capacity as real
  {
    var c, share := capacity as real, used as real / capacity as real;
    assert share * c == used as real;
    assert (1.0 - share) * c == (capacity - used) as real;
    Quotient((capacity - used) as real, c, 1.0 - share);
  }

  lemma Quotient(x: real, c: real, q: real)
    requires c > 0.0 && q * c == x
    ensures x / c == q
  {
  }

  /** The higher score is the lower occupation. */
  lemma ScoreIsOccupation(w: Workload, a: Node, b: Node)
    ensures ScoreNode(w, b) <= ScoreNode(w, a) <==> NoFuller(w, a, b)
  {
    ShareLeft(a.cpuCapacity, a.cpuAllocated + w.cpu);
    ShareLeft(a.memoryCapacity, a.memoryAllocated + w.memory);
    ShareLeft(b.cpuCapacity, b.cpuAllocated + w.cpu);
    ShareLeft(b.memoryCapacity, b.memoryAllocated + w.memory);
    assert a.cpuCapacity - a.cpuAllocated - w.cpu == a.cpuCapacity - (a.cpuAllocated + w.cpu);
    assert a.memoryCapacity - a.memoryAllocated - w.memory == a.memoryCapacity - (a.memoryAllocated + w.memory);
    assert b.cpuCapacity - b.cpuAllocated - w.cpu == b.cpuCapacity - (b.cpuAllocated + w.cpu);
    assert b.memoryCapacity - b.memoryAllocated - w.memory == b.memoryCapacity - (b.memoryAllocated + w.memory);
  }

  /** Entry `i` is the first of the least occupied ones. */
  ghost predicate FirstBest(w: Workload, ns: seq<NodeEntry>, i: nat) {
    && i < |ns|
    && (forall j :: 0 <= j < |ns| ==> NoFuller(w, ns[i].row, ns[j].row))
    && (forall j :: 0 <= j < i ==> !NoFuller(w, ns[j].row, ns[i].row))
  }

  /** The first maximiser of the score. `-Inf` is the score that is not there yet. */
  method SelectBestNode(w: Workload, ns: seq<NodeEntry>) returns (best: NodeEntry)
    requires |ns| > 0
    ensures exists i: nat :: FirstBest(w, ns, i) && best == ns[i]
  {
    best := ns[0];
    var bestScore: Option<real> := None;
    ghost var at := 0;
    for k := 0 to |ns|
      invariant at < |ns| && best == ns[at]
      invariant bestScore.None? <==> k == 0
      invariant k > 0 ==> at < k && bestScore == Some(ScoreNode(w, best.row))
      invariant forall j :: 0 <= j < k ==> ScoreNode(w, ns[j].row) <= ScoreNode(w, best.row)
      invariant forall j :: 0 <= j < at ==> ScoreNode(w, ns[j].row) < ScoreNode(w, best.row)
    {
      var score := ScoreNode(w, ns[k].row);
      if bestScore.None? || score > bestScore.value {
        bestScore, best, at := Some(score), ns[k], k;
      }
    }
    forall j | 0 <= j < |ns|
      ensures NoFuller(w, ns[at].row, ns[j].row) && (j < at ==> !NoFuller(w, ns[j].row, ns[at].row))
    {
      ScoreIsOccupation(w, ns[at].row, ns[j].row);
      ScoreIsOccupation(w, ns[j].row, ns[at].row);
    }
    assert FirstBest(w, ns, at);
  }

  /** Node `n` would be less occupied than node `m`, or the same and has the smaller id. */
  predicate Beats(w: Workload, n: NodeId, a: Node, m: NodeId, b: Node) {
    NoFuller(w, a, b) && (NoFuller(w, b, a) ==> n <= m)
  }

  /** `n` is least occupied among the nodes that suit the workload, and has the smallest id among those that tie. */
  ghost predicate BestPlace(w: Workload, nodes: NodeRows, n: NodeId) {
    && n in nodes && Suits(w, nodes[n])
    && (forall m :: m in nodes && Suits(w, nodes[m]) ==> Beats(w, n, nodes[n], m, nodes[m]))
  }

  /**
    Among suitable nodes of equal capacities, one that has less of one resource allocated, and no more of the
    other, is never passed over.
   */
  lemma RoomierIsNotPassedOver(w: Workload, nodes: NodeRows, n: NodeId, m: NodeId)
    requires BestPlace(w, nodes, n) && m in nodes && Suits(w, nodes[m])
    requires nodes[m].cpuCapacity == nodes[n].cpuCapacity && nodes[m].memoryCapacity == nodes[n].memoryCapacity
    requires nodes[m].cpuAllocated <= nodes[n].cpuAllocated && nodes[m].memoryAllocated <= nodes[n].memoryAllocated
    ensures nodes[m].cpuAllocated == nodes[n].cpuAllocated && nodes[m].memoryAllocated == nodes[n].memoryAllocated
  {
    var a, b := nodes[n], nodes[m];
    assert NoFuller(w, a, b);
    SharesOrder(b.cpuAllocated + w.cpu, a.cpuAllocated + w.cpu, a.cpuCapacity);
    SharesOrder(b.memoryAllocated + w.memory, a.memoryAllocated + w.memory, a.memoryCapacity);
  }

  lemma SharesOrder(x: nat, y: nat, capacity: pos)
    requires x <= y
    ensures x as real / capacity as real <= y as real / capacity as real
    ensures x < y ==> x as real / capacity as real < y as real / capacity as real
  {
    assert y as real / capacity as real - x as real / capacity as real == (y - x) as real / capacity as real;
  }

  ghost predicate Placeable(w: Workload, nodes: NodeRows) {
    exists n :: n in nodes && Suits(w, nodes[n])
  }

  /** Every workload of the service that waits for a place would find one. */
  ghost predicate Roomy(s: ServiceId, t: Cluster) {
    forall id :: id in t.workloads && t.workloads[id].service == s && t.workloads[id].desired.Pending? ==>
      Placeable(t.workloads[id], t.nodes)
  }

  /**
    From position `start` on there is room for the service at every moment, and nothing placement looks at
    changes behind its back.
   */
  ghost predicate SmoothSince(s: ServiceId, t: Cluster, es: seq<Event>, start: nat) {
    QuietSince(t, es, start) && forall k :: start <= k <= |es| ==> Roomy(s, Run(t, es[..k]))
  }

  lemma SmoothCut(s: ServiceId, t: Cluster, before: seq<Event>, after: seq<Event>, start: nat)
    requires start <= |before| && before <= after && SmoothSince(s, t, after, start)
    ensures SmoothSince(s, t, before, start) && SmoothSince(s, t, after, |before|)
    ensures Roomy(s, Run(t, before))
  {
    hide Run, Roomy, QuietSince;
    assert after[..|before|] == before;
    QuietCut(t, after, start, |before|);
    forall k | start <= k <= |before| ensures Roomy(s, Run(t, before[..k])) {
      assert after[..k] == before[..k];
    }
  }

  method Schedule(w: Workload, ns: seq<NodeEntry>, ghost nodes: NodeRows) returns (chosen: Option<NodeEntry>)
    requires ListsNodes(ns, nodes)
    ensures chosen.Some? <==> Placeable(w, nodes)
    ensures chosen.Some? ==> BestPlace(w, nodes, chosen.value.id)
  {
    hide NoFuller;
    var candidates := FilterNodes(w, ns);
    if |candidates| == 0 {
      forall n | n in nodes ensures !Suits(w, nodes[n]) {
        assert NodeEntry(n, nodes[n]) in ns;
        assert NodeEntry(n, nodes[n]) !in candidates;
      }
      return None;
    }
    var best := SelectBestNode(w, candidates);
    ghost var i: nat :| FirstBest(w, candidates, i) && best == candidates[i];
    assert best in candidates;
    forall m | m in nodes && Suits(w, nodes[m])
      ensures Beats(w, best.id, best.row, m, nodes[m])
    {
      assert NodeEntry(m, nodes[m]) in candidates;
      var j :| 0 <= j < |candidates| && candidates[j] == NodeEntry(m, nodes[m]);
    }
    return Some(best);
  }

  /** Every ready node was there and ready before, with the same capacity and no more allocated. */
  ghost predicate Tighter(before: NodeRows, after: NodeRows) {
    forall n :: n in after && after[n].status.Ready? ==>
      && n in before && before[n].status.Ready?
      && before[n].cpuCapacity == after[n].cpuCapacity && before[n].memoryCapacity == after[n].memoryCapacity
      && before[n].cpuAllocated <= after[n].cpuAllocated && before[n].memoryAllocated <= after[n].memoryAllocated
  }

  /** Calm transactions only ever use room up. */
  lemma {:induction false} CalmTightens(t: Cluster, es: seq<Event>, start: nat, m: nat)
    requires start <= m <= |es| && CalmSince(t, es, start)
    ensures Tighter(Run(t, es[..start]).nodes, Run(t, es[..m]).nodes)
    decreases m
  {
    hide Run;
    if m > start {
      CalmTightens(t, es, start, m - 1);
      PrefixStep(t, es, m - 1);
      assert Calm(Run(t, es[..m - 1]), es[m - 1]);
    }
  }

  lemma StillUnplaceable(w: Workload, before: NodeRows, after: NodeRows)
    requires Tighter(before, after) && !Placeable(w, before)
    ensures !Placeable(w, after)
  {
    forall n | n in after ensures !Suits(w, after[n]) {
      assert n in before ==> !Suits(w, before[n]);
    }
  }

  /** The nodes as they were, and new ones that are not ready. */
  ghost predicate Alike(before: NodeRows, after: NodeRows) {
    && (forall n :: n in before ==> n in after && after[n] == before[n])
    && (forall n :: n in after && n !in before ==> !after[n].status.Ready?)
  }

  /** Heartbeats and repeated registrations change nothing placement looks at. */
  lemma {:induction false} QuietWritesKeepNodes(t: Cluster, es: seq<Event>, start: nat, m: nat)
    requires start <= m <= |es| && QuietSince(t, es, start)
    requires forall k :: start <= k < m ==> es[k].Register? || es[k].SetNodeStatus?
    ensures Alike(Run(t, es[..start]).nodes, Run(t, es[..m]).nodes)
    decreases m
  {
    hide Run;
    if m > start {
      QuietWritesKeepNodes(t, es, start, m - 1);
      PrefixStep(t, es, m - 1);
      assert Quiet(Run(t, es[..m - 1]), es[m - 1]);
    }
  }

  /** Row `w` was assigned a node; no other row changed. */
  ghost predicate PlacedFrom(after: Rows, before: Rows, w: Workload) {
    && w.id in after && after[w.id].node.Some?
    && after == before[w.id := w.(node := after[w.id].node, desired := Scheduled, held := true)]
  }

  /**
    Why no place was found: no node suited, or the best one no longer does when it is to be reserved.
   */
  ghost predicate NoPlace(w: Workload, before: NodeRows, after: NodeRows) {
    Placeable(w, before) ==> exists n :: BestPlace(w, before, n) && (n in after ==> !Suits(w, after[n]))
  }

  /**
    The node is chosen from one reading of the nodes and the reservation checks it again under lock. If only
    heartbeats and the like came in between, the workload is placed if and only if some node suits it, on the
    best one. The row must still be as it was listed; that it is, is what the callers' loops establish.
   */
  method ScheduleWorkload(store: Postgres, w: Workload) returns (ok: bool)
    requires store.Valid()
    requires w.id in store.workloads && store.workloads[w.id] == w && w.desired.Pending?
    modifies store
    ensures store.Valid() && store.origin == old(store.origin) && store.services == old(store.services)
    ensures Grew(old(store.log), store.log, {KReserve, KEnvironment})
    ensures !ok ==> store.workloads == old(store.workloads)
    ensures ok ==> PlacedFrom(store.workloads, old(store.workloads), w)
    ensures ok ==> BestPlace(w, old(store.nodes), store.workloads[w.id].node.value)
    ensures !ok ==> NoPlace(w, old(store.nodes), store.nodes)
    ensures QuietSince(store.origin, store.log, |old(store.log)|) ==> (ok <==> Placeable(w, old(store.nodes)))
  {
    hide Run, LawfulRun, Quiet, NoFuller;
    ghost var log := store.log;
    var ns := store.ListNodes();
    var selected := Schedule(w, ns, store.nodes);
    store.Interfere();
    ghost var mid := store.log;
    assert Run(store.origin, mid) == store.Now();
    ghost var nodes := store.nodes;
    ok := false;
    if selected.Some? {
      ok := store.ReserveNodeForWorkload(w.id, selected.value.id, w.cpu, w.memory);
    }
    if QuietSince(store.origin, store.log, |log|) {
      assert store.log[..|log|] == log && store.log[..|mid|] == mid;
      assert forall k :: |log| <= k < |mid| ==> KindOf(mid[k]) == KEnvironment;
      QuietWritesKeepNodes(store.origin, store.log, |log|, |mid|);
      assert Alike(old(store.nodes), nodes);
    }
  }
}
