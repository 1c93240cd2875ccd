/**
  The runtime reconciler: bring the recorded states of workloads in line with the containers a node reports.
 */
module Drift {
  import opened Model
  import opened Ledger
  import opened Store
  import opened Execution

  function ContainerState(status: string): WorkloadState {
    if status == "running" then Running
    else if status == "created" then Scheduled
    else Failed
  }

  ghost predicate UniqueListing(cs: seq<Container>) {
    forall i, j :: 0 <= i < j < |cs| ==> cs[i].id != cs[j].id
  }

  ghost predicate Listed(cs: seq<Container>, c: ContainerId) {
    exists i :: 0 <= i < |cs| && cs[i].id == c
  }

  /** The recorded state is what the text says: only these two texts stand for a live container. */
  predicate Reads(w: Workload, status: string) {
    && (status == "running" ==> w.actual == Running)
    && (status == "created" ==> w.actual == Scheduled)
    && (status != "running" && status != "created" ==> w.actual == Failed)
  }

  /** The recorded state is what the report says, or not a live one when the container is missing from it. */
  ghost predicate Agrees(w: Workload, cs: seq<Container>) {
    w.container.Some? ==>
      && (forall i :: 0 <= i < |cs| && cs[i].id == w.container.value ==> Reads(w, cs[i].status))
      && (!Listed(cs, w.container.value) ==> w.actual != Running && w.actual != Scheduled)
  }

  /** The report shows a container of a workload that was asked to stop. */
  ghost predicate AskedAndShown(w: Workload, cs: seq<Container>) {
    w.desired.Stopped? && w.container.Some? && Listed(cs, w.container.value)
  }

  /** A stopped row is stopped no longer, or the other way round. */
  predicate Toggles(a: Workload, b: Workload) {
    b.actual.Stopped? <==> !a.actual.Stopped?
  }

  /** What one listed container may make of its row. */
  predicate SeenAs(a: Workload, b: Workload, status: string) {
    if a.desired == Stopped && a.actual != Stopped then b == a || b == a.(actual := Stopped)
    else Reads(b, status) && b == a.(actual := b.actual, held := b.held) && (Reads(a, status) ==> b == a)
  }

  /**
    The requests made on account of one listed container: a workload that was asked to stop and has not stopped
    has its container stopped, and is recorded as stopped exactly if that is granted.
   */
  predicate AskedFor(a: Workload, b: Workload, n: NodeId, c: Container, calls: seq<Answer>) {
    if a.desired == Stopped && a.actual != Stopped then
      && |calls| == 1 && calls[0].at == Some(n) && calls[0].call == Halt(c.id)
      && b == if calls[0].granted then a.(actual := Stopped) else a
    else calls == []
  }

  /** No transaction after `before` fails and releases, or rewrites, workload `id`. */
  ghost predicate LeftAlone(before: seq<Event>, after: seq<Event>, id: WorkloadId) {
    forall i :: |before| <= i < |after| ==>
      after[i] != FailAndRelease(id) && !(after[i].SetActual? && after[i].id == id)
  }

  lemma LeftAloneThrough(before: seq<Event>, mid: seq<Event>, after: seq<Event>, id: WorkloadId)
    requires before <= mid <= after && LeftAlone(before, mid, id) && LeftAlone(mid, after, id)
    ensures LeftAlone(before, after, id)
  {
    forall i | |before| <= i < |after|
      ensures after[i] != FailAndRelease(id) && !(after[i].SetActual? && after[i].id == id)
    {
      if i < |mid| { assert after[i] == mid[i]; }
    }
  }

  predicate OneContainer(a: Workload, b: Workload, c: Container) {
    if a.container == Some(c.id) then SeenAs(a, b, c.status) else b == a
  }

  /** The requests made for a listed container, given the rows before and after. */
  ghost predicate Accounted(before: Rows, after: Rows, n: NodeId, c: Container, calls: seq<Answer>) {
    && before.Keys == after.Keys
    && (forall id :: id in before && before[id].container == Some(c.id) ==>
          AskedFor(before[id], after[id], n, c, calls))
    && ((forall id :: id in before ==> before[id].container != Some(c.id)) ==> calls == [])
  }

  predicate OneToggled(a: Workload, b: Workload, c: Container) {
    a.desired.Stopped? && a.container == Some(c.id) ==> Toggles(a, b)
  }

  /** The first pass, for one container of the report. */
  method ReconcileContainer(store: Postgres, client: NodeClient, n: NodeId, c: Container)
    returns (ok: bool, ghost calls: seq<Answer>)
    requires store.Valid()
    modifies store, client
    ensures ok && store.Valid() && store.origin == old(store.origin) && store.services == old(store.services)
    ensures Grew(old(store.log), store.log, {KFail, KActual, KEnvironment})
    ensures store.workloads.Keys == old(store.workloads).Keys
    ensures forall id :: id in store.workloads ==> OneContainer(old(store.workloads)[id], store.workloads[id], c)
    ensures client.reliable ==> forall id :: id in store.workloads ==>
      OneToggled(old(store.workloads)[id], store.workloads[id], c)
    ensures client.trace == old(client.trace) + calls
    ensures Accounted(old(store.workloads), store.workloads, n, c, calls)
    ensures forall id :: id in store.workloads && store.workloads[id] == old(store.workloads)[id] ==>
      LeftAlone(old(store.log), store.log, id)
  {
    hide Run, LawfulRun;
    store.Interfere();
    ghost var mid := store.log;
    assert forall id :: LeftAlone(old(store.log), mid, id);
    store.TablesSound();
    ok, calls := true, [];
    var found := store.GetWorkloadByContainerID(c.id);
    if found.None? { return; }
    var done, made := ReconcileWorkload(store, client, n, found.value, c);
    ok, calls := done, made;
    forall id | LeftAlone(mid, store.log, id) ensures LeftAlone(old(store.log), store.log, id) {
      LeftAloneThrough(old(store.log), mid, store.log, id);
    }
  }

  /** The first pass, for the workload of a listed container. */
  method ReconcileWorkload(store: Postgres, client: NodeClient, n: NodeId, w: Workload, c: Container)
    returns (ok: bool, ghost calls: seq<Answer>)
    requires store.Valid() && w.id in store.workloads && store.workloads[w.id] == w && w.container == Some(c.id)
    modifies store, client
    ensures ok && store.Valid() && store.origin == old(store.origin) && store.services == old(store.services)
    ensures Grew(old(store.log), store.log, {KFail, KActual})
    ensures w.id in store.workloads && SeenAs(w, store.workloads[w.id], c.status)
    ensures client.reliable && w.desired.Stopped? ==> Toggles(w, store.workloads[w.id])
    ensures client.trace == old(client.trace) + calls && AskedFor(w, store.workloads[w.id], n, c, calls)
    ensures store.workloads == old(store.workloads)[w.id := store.workloads[w.id]]
    ensures forall id :: id != w.id || store.workloads[w.id] == w ==> LeftAlone(old(store.log), store.log, id)
  {
    hide Run, LawfulRun;
    store.TablesSound();
    ok, calls := true, [];
    if w.desired.Stopped? && !w.actual.Stopped? {
      var stopped := client.Request(Some(n), Halt(c.id));
      calls := [Answer(Some(n), Halt(c.id), stopped)];
      if !stopped { return; }
      store.UpdateWorkloadActualState(w.id, Stopped);
      return;
    }
    var state := ContainerState(c.status);
    if w.actual == state { return; }
    if state.Failed? {
      ok := store.MarkWorkloadFailedAndReleaseResources(w.id);
    } else {
      store.UpdateWorkloadActualState(w.id, state);
    }
  }

  /** The report shows the container of `w` in a live state. */
  ghost predicate ReportedAlive(w: Workload, cs: seq<Container>) {
    w.container.Some? &&
    exists i :: 0 <= i < |cs| && cs[i].id == w.container.value && cs[i].status in {"running", "created"}
  }

  /** What a whole repair may make of a row. */
  ghost predicate Repairs(a: Workload, b: Workload, cs: seq<Container>) {
    && b == a.(actual := b.actual, held := b.held)
    && (!InUse(a.actual) && !ReportedAlive(a, cs) ==> !InUse(b.actual))
    && (a.container.None? ==> b == a)
  }

  lemma SeenRepairs(a: Workload, b: Workload, c: Container, cs: seq<Container>, k: nat)
    requires k < |cs| && cs[k] == c && a.container == Some(c.id) && SeenAs(a, b, c.status)
    ensures Repairs(a, b, cs)
    ensures !a.desired.Stopped? ==> Reads(b, c.status)
    ensures Settles(a, cs) ==> b == a
  {
    assert Listed(cs, c.id);
  }

  /** Row `a` after the first `k` containers of the report. */
  ghost predicate Passed(a: Workload, b: Workload, cs: seq<Container>, k: nat)
    requires k <= |cs|
  {
    && Repairs(a, b, cs)
    && ((forall i :: 0 <= i < k ==> a.container != Some(cs[i].id)) ==> b == a)
    && (forall i :: 0 <= i < k && a.container == Some(cs[i].id) && !a.desired.Stopped? ==>
          Reads(b, cs[i].status))
  }

  /** The report gives no reason to change the row. */
  ghost predicate Settles(w: Workload, cs: seq<Container>) {
    Agrees(w, cs) && !AskedAndShown(w, cs)
  }

  /** If one of the first `k` containers of the report is that of `a`, asked to stop, then `b` is toggled. */
  ghost predicate ToggledBy(a: Workload, b: Workload, cs: seq<Container>, k: nat)
    requires k <= |cs|
  {
    a.desired.Stopped? && (exists i :: 0 <= i < k && a.container == Some(cs[i].id)) ==> Toggles(a, b)
  }

  lemma NothingPassed(rows: Rows, cs: seq<Container>)
    ensures forall id :: id in rows ==> Passed(rows[id], rows[id], cs, 0) && ToggledBy(rows[id], rows[id], cs, 0)
  {
  }

  lemma SameContainers(rows: Rows, mid: Rows, cs: seq<Container>, k: nat)
    requires k <= |cs| && rows.Keys == mid.Keys && forall id :: id in rows ==> Passed(rows[id], mid[id], cs, k)
    ensures forall id :: id in rows ==> mid[id].container == rows[id].container
  {
  }

  lemma NothingDone(log: seq<Event>)
    ensures forall id :: LeftAlone(log, log, id)
  {
  }

  lemma OnePass(a: Workload, mid: Workload, b: Workload, cs: seq<Container>, k: nat)
    requires k < |cs| && UniqueListing(cs) && Passed(a, mid, cs, k)
    requires OneContainer(mid, b, cs[k])
    ensures Passed(a, b, cs, k + 1)
    ensures Settles(a, cs) && mid == a ==> b == a
    ensures ToggledBy(a, mid, cs, k) && OneToggled(mid, b, cs[k]) ==> ToggledBy(a, b, cs, k + 1)
  {
    if mid.container == Some(cs[k].id) {
      assert mid == a;
      SeenRepairs(a, b, cs[k], cs, k);
    }
  }

  lemma RowsPass(rows: Rows, mid: Rows, after: Rows, cs: seq<Container>, k: nat)
    requires k < |cs| && UniqueListing(cs) && rows.Keys == mid.Keys == after.Keys
    requires forall id :: id in rows ==> Passed(rows[id], mid[id], cs, k) && OneContainer(mid[id], after[id], cs[k])
    ensures forall id :: id in rows ==> Passed(rows[id], after[id], cs, k + 1)
    ensures forall id :: id in rows && Settles(rows[id], cs) && mid[id] == rows[id] ==> after[id] == rows[id]
    ensures forall id :: id in rows && ToggledBy(rows[id], mid[id], cs, k) && OneToggled(mid[id], after[id], cs[k]) ==>
      ToggledBy(rows[id], after[id], cs, k + 1)
  {
    hide Passed, OneContainer, Settles, ToggledBy, OneToggled, UniqueListing;
    forall id | id in rows
      ensures Passed(rows[id], after[id], cs, k + 1)
      ensures Settles(rows[id], cs) && mid[id] == rows[id] ==> after[id] == rows[id]
      ensures ToggledBy(rows[id], mid[id], cs, k) && OneToggled(mid[id], after[id], cs[k]) ==>
        ToggledBy(rows[id], after[id], cs, k + 1)
    {
      OnePass(rows[id], mid[id], after[id], cs, k);
    }
  }

  /**
    How the first pass over the report of node `n` went: every listed container had its turn, on the row as it
    was, and what was asked of the node for it accounts for what became of that row.
   */
  ghost predicate PassedReport(before: Rows, after: Rows, n: NodeId, cs: seq<Container>, stretches: seq<seq<Answer>>) {
    && |stretches| == |cs| && before.Keys == after.Keys
    && forall k :: 0 <= k < |cs| ==> Accounted(before, after, n, cs[k], stretches[k])
  }

  lemma AccountedOn(before: Rows, mid: Rows, after: Rows, cs: seq<Container>, k: nat, n: NodeId, calls: seq<Answer>)
    requires k < |cs| && UniqueListing(cs) && before.Keys == mid.Keys
    requires forall id :: id in before ==> Passed(before[id], mid[id], cs, k)
    requires Accounted(mid, after, n, cs[k], calls)
    ensures Accounted(before, after, n, cs[k], calls)
  {
  }

  lemma AccountedStill(before: Rows, mid: Rows, after: Rows, c: Container, d: Container, n: NodeId, calls: seq<Answer>)
    requires Accounted(before, mid, n, c, calls) && mid.Keys == after.Keys && c.id != d.id
    requires forall id :: id in mid ==> OneContainer(mid[id], after[id], d)
    requires forall id :: id in before ==> mid[id].container == before[id].container
    ensures Accounted(before, after, n, c, calls)
  {
  }

  method FirstPass(store: Postgres, client: NodeClient, n: NodeId, cs: seq<Container>)
    returns (ghost stretches: seq<seq<Answer>>)
    requires store.Valid() && UniqueListing(cs)
    modifies store, client
    ensures store.Valid() && store.origin == old(store.origin) && store.services == old(store.services)
    ensures Grew(old(store.log), store.log, {KFail, KActual, KEnvironment})
    ensures store.workloads.Keys == old(store.workloads).Keys
    ensures forall id :: id in store.workloads ==>
      Passed(old(store.workloads)[id], store.workloads[id], cs, |cs|)
    ensures client.reliable ==> forall id :: id in store.workloads ==>
      ToggledBy(old(store.workloads)[id], store.workloads[id], cs, |cs|)
    ensures forall id :: id in store.workloads && Settles(old(store.workloads)[id], cs) ==>
      store.workloads[id] == old(store.workloads)[id] && LeftAlone(old(store.log), store.log, id)
    ensures PassedReport(old(store.workloads), store.workloads, n, cs, stretches)
    ensures client.trace == old(client.trace) + Flatten(stretches)
  {
    hide Run, LawfulRun, Sound, Settles, Passed, ToggledBy, OneToggled, OneContainer, LeftAlone, Accounted, Flatten;
    ghost var rows := store.workloads;
    stretches := [];
    NoStretches();
    NothingPassed(rows, cs);
    NothingDone(store.log);
    for k := 0 to |cs|
      invariant store.Valid() && store.origin == old(store.origin) && store.services == old(store.services)
      invariant Grew(old(store.log), store.log, {KFail, KActual, KEnvironment})
      invariant store.workloads.Keys == rows.Keys
      invariant forall id :: id in rows ==> Passed(rows[id], store.workloads[id], cs, k)
      invariant client.reliable ==> forall id :: id in rows ==> ToggledBy(rows[id], store.workloads[id], cs, k)
      invariant forall id :: id in rows && Settles(rows[id], cs) ==>
        store.workloads[id] == rows[id] && LeftAlone(old(store.log), store.log, id)
      invariant |stretches| == k && client.trace == old(client.trace) + Flatten(stretches)
      invariant forall j :: 0 <= j < k ==> Accounted(rows, store.workloads, n, cs[j], stretches[j])
    {
      ghost var mid := store.workloads;
      ghost var log := store.log;
      var _, calls := ReconcileContainer(store, client, n, cs[k]);
      AccountedOn(rows, mid, store.workloads, cs, k, n, calls);
      SameContainers(rows, mid, cs, k);
      forall j | 0 <= j < k ensures Accounted(rows, store.workloads, n, cs[j], stretches[j]) {
        AccountedStill(rows, mid, store.workloads, cs[j], cs[k], n, stretches[j]);
      }
      FlattenSnoc(stretches, calls);
      stretches := stretches + [calls];
      RowsPass(rows, mid, store.workloads, cs, k);
      forall id | id in rows && Settles(rows[id], cs) ensures LeftAlone(old(store.log), store.log, id) {
        LeftAloneThrough(old(store.log), log, store.log, id);
      }
    }
  }

  /** The second pass, for one row of the node: live, with a container that the report does not show. */
  predicate GoneMissing(w: Workload, existing: set<ContainerId>) {
    w.container.Some? && (w.actual.Running? || w.actual.Scheduled?) && w.container.value !in existing
  }

  function FailIfMissing(w: Workload, existing: set<ContainerId>): Workload {
    if GoneMissing(w, existing) then w.(actual := Failed, held := false) else w
  }

  function AfterSecondPass(w: Workload, n: NodeId, existing: set<ContainerId>): Workload {
    if w.node == Some(n) then FailIfMissing(w, existing) else w
  }

  method CheckWorkload(store: Postgres, w: Workload, existing: set<ContainerId>) returns (ok: bool)
    requires store.Valid() && w.id in store.workloads && store.workloads[w.id] == w
    modifies store
    ensures ok && store.Valid() && store.origin == old(store.origin) && store.services == old(store.services)
    ensures Grew(old(store.log), store.log, {KFail})
    ensures store.workloads == old(store.workloads)[w.id := FailIfMissing(w, existing)]
    ensures forall id :: id != w.id || FailIfMissing(w, existing) == w ==> LeftAlone(old(store.log), store.log, id)
  {
    hide Run, LawfulRun;
    ok := true;
    if w.container.None? { return; }
    if !w.actual.Running? && !w.actual.Scheduled? { return; }
    if w.container.value in existing { return; }
    store.TablesSound();
    ok := store.MarkWorkloadFailedAndReleaseResources(w.id);
  }

  /** What was left alone so far and has not changed in the turn of row `own` is left alone still. */
  lemma StillAlone(rows: Rows, mid: Rows, now: Rows, own: WorkloadId,
                   before: seq<Event>, log: seq<Event>, after: seq<Event>)
    requires before <= log <= after && rows.Keys == mid.Keys == now.Keys
    requires own in rows && mid[own] == rows[own]
    requires forall id :: id in rows && id != own ==> now[id] == mid[id]
    requires forall id :: id in rows && mid[id] == rows[id] ==> LeftAlone(before, log, id)
    requires forall id :: id != own || now[own] == mid[own] ==> LeftAlone(log, after, id)
    ensures forall id :: id in rows && now[id] == rows[id] ==> LeftAlone(before, after, id)
  {
    hide LeftAlone;
    forall id | id in rows && now[id] == rows[id] ensures LeftAlone(before, after, id) {
      LeftAloneThrough(before, log, after, id);
    }
  }

  method SecondPass(store: Postgres, n: NodeId, existing: set<ContainerId>) returns (ok: bool)
    requires store.Valid()
    modifies store
    ensures ok && store.Valid() && store.origin == old(store.origin) && store.services == old(store.services)
    ensures Grew(old(store.log), store.log, {KFail})
    ensures store.workloads.Keys == old(store.workloads).Keys
    ensures forall id :: id in store.workloads ==>
      store.workloads[id] == AfterSecondPass(old(store.workloads)[id], n, existing)
    ensures forall id :: id in store.workloads && store.workloads[id] == old(store.workloads)[id] ==>
      LeftAlone(old(store.log), store.log, id)
  {
    hide Run, LawfulRun, Sound, FailIfMissing, LeftAlone;
    store.TablesKeyed();
    NothingDone(store.log);
    ok := true;
    ghost var rows := store.workloads;
    var ws := store.ListWorkloadsByNode(n);
    for k := 0 to |ws|
      invariant ok && store.Valid() && store.origin == old(store.origin) && store.services == old(store.services)
      invariant Grew(old(store.log), store.log, {KFail})
      invariant store.workloads.Keys == rows.Keys
      invariant forall j :: k <= j < |ws| ==> store.workloads[ws[j].id] == ws[j]
      invariant forall j :: 0 <= j < k ==> store.workloads[ws[j].id] == FailIfMissing(ws[j], existing)
      invariant forall id :: id in rows && rows[id].node != Some(n) ==> store.workloads[id] == rows[id]
      invariant forall id :: id in rows && store.workloads[id] == rows[id] ==> LeftAlone(old(store.log), store.log, id)
    {
      ghost var mid, log := store.workloads, store.log;
      ok := CheckWorkload(store, ws[k], existing);
      StillAlone(rows, mid, store.workloads, ws[k].id, old(store.log), log, store.log);
      if !ok { return; }
    }
    forall id | id in rows && rows[id].node == Some(n)
      ensures store.workloads[id] == FailIfMissing(rows[id], existing)
    {
      assert rows[id] in ws;
    }
  }

  /** The report does not concern the row: it is of another node, and its container is not listed. */
  ghost predicate Foreign(w: Workload, n: NodeId, cs: seq<Container>) {
    w.node != Some(n) && (w.container.Some? ==> !Listed(cs, w.container.value))
  }

  /** What a whole repair of node `n` makes of any row. */
  ghost predicate Repaired(a: Workload, b: Workload, n: NodeId, cs: seq<Container>) {
    && Repairs(a, b, cs)
    && (Foreign(a, n, cs) ==> b == a)
    && (a.node == Some(n) && a.container.Some? && !Listed(cs, a.container.value) ==>
          b == if a.actual == Running || a.actual == Scheduled then a.(actual := Failed, held := false) else a)
    && (a.node == Some(n) ==> (Settles(a, cs) ==> b == a) && (AskedAndShown(b, cs) || Agrees(b, cs)))
  }

  /** The second pass leaves alone what was asked to stop and is still shown. */
  ghost predicate AskedKept(mid: Rows, after: Rows, cs: seq<Container>) {
    forall id :: id in mid && AskedAndShown(mid[id], cs) ==> id in after && after[id] == mid[id]
  }

  /** Every container of the report had its turn in the first pass, whatever the turns before it came to. */
  ghost predicate AllInTurn(before: Rows, after: Rows, n: NodeId, cs: seq<Container>, stretches: seq<seq<Answer>>) {
    exists mid :: PassedReport(before, mid, n, cs, stretches) && AskedKept(mid, after, cs)
  }

  /**
    One repair of a node. If the report could be read, every workload of the node agrees with it afterwards,
    except those that were asked to stop and are still shown, and a workload for which the report gives no
    reason is neither changed nor released. Agents that do as asked toggle the excepted ones every time.
   */
  method ReconcileNode(store: Postgres, client: NodeClient, n: NodeId)
    returns (ok: bool, ghost stretches: seq<seq<Answer>>)
    requires store.Valid()
    requires n in client.listings ==> UniqueListing(client.listings[n])
    modifies store, client
    ensures store.Valid() && store.origin == old(store.origin) && store.services == old(store.services)
    ensures Grew(old(store.log), store.log, {KFail, KActual, KEnvironment})
    ensures ok <==> n in client.listings
    ensures store.workloads.Keys == old(store.workloads).Keys
    ensures !ok ==> store.workloads == old(store.workloads)
    ensures ok ==> forall id :: id in store.workloads ==>
      Repaired(old(store.workloads)[id], store.workloads[id], n, client.listings[n])
    ensures ok ==> forall id :: id in store.workloads && old(store.workloads)[id].node == Some(n) ==>
      (Settles(old(store.workloads)[id], client.listings[n]) ==> LeftAlone(old(store.log), store.log, id))
    ensures ok && client.reliable ==> forall id :: id in store.workloads ==>
      (AskedAndShown(old(store.workloads)[id], client.listings[n]) ==>
         Toggles(old(store.workloads)[id], store.workloads[id]))
    ensures ok ==> forall id, c :: id in store.workloads && c in client.listings[n] ==>
      (ShownOn(store.workloads[id], n, c) && store.workloads[id].desired != Stopped ==>
         && (c.status == "running" ==> store.workloads[id].actual == Running)
         && (c.status == "created" ==> store.workloads[id].actual == Scheduled)
         && (c.status != "running" && c.status != "created" ==>
               store.workloads[id].actual == Failed && !store.workloads[id].held))
    ensures client.trace == old(client.trace) + Flatten(stretches)
    ensures !ok ==> stretches == []
    ensures ok ==> AllInTurn(old(store.workloads), store.workloads, n, client.listings[n], stretches)
  {
    hide Run, LawfulRun, Sound, Settles, Passed, ToggledBy, AfterSecondPass, LeftAlone, AskedAndShown, Repaired;
    hide PassedReport, Flatten;
    stretches := [];
    NoStretches();
    var containers := client.ListContainers(n);
    if containers.None? { return false, stretches; }
    var cs := containers.value;
    var existing := set i | 0 <= i < |cs| :: cs[i].id;
    ghost var rows := store.workloads;
    stretches := FirstPass(store, client, n, cs);
    ghost var mid, log := store.workloads, store.log;
    ok := SecondPass(store, n, existing);
    forall id | id in mid && AskedAndShown(mid[id], cs) ensures store.workloads[id] == mid[id] {
      ShownIsNotMissing(mid[id], n, cs, existing);
    }
    assert PassedReport(rows, mid, n, cs, stretches) && AskedKept(mid, store.workloads, cs);
    forall id | id in rows
      ensures Repaired(rows[id], store.workloads[id], n, cs)
      ensures client.reliable && AskedAndShown(rows[id], cs) ==> Toggles(rows[id], store.workloads[id])
      ensures rows[id].node == Some(n) && Settles(rows[id], cs) ==> LeftAlone(old(store.log), store.log, id)
    {
      BothPasses(rows[id], mid[id], store.workloads[id], cs, existing, n);
      if rows[id].node == Some(n) && Settles(rows[id], cs) {
        SettledStays(rows[id], store.workloads[id], n, cs);
        LeftAloneThrough(old(store.log), log, store.log, id);
      }
    }
    forall id, c | id in store.workloads && c in cs &&
      ShownOn(store.workloads[id], n, c) && store.workloads[id].desired != Stopped
      ensures var w := store.workloads[id];
        && (c.status == "running" ==> w.actual == Running) && (c.status == "created" ==> w.actual == Scheduled)
        && (c.status != "running" && c.status != "created" ==> w.actual == Failed && !w.held)
    {
      store.RowSound(id);
      RepairedAgrees(rows[id], store.workloads[id], n, cs);
      AgreesInWords(store.workloads[id], n, cs, c);
    }
  }

  lemma RepairedAgrees(a: Workload, b: Workload, n: NodeId, cs: seq<Container>)
    requires Repaired(a, b, n, cs) && b.node == Some(n)
    ensures AskedAndShown(b, cs) || Agrees(b, cs)
  {
  }

  /** The row is of node `n`, and `c` is its container. */
  predicate ShownOn(w: Workload, n: NodeId, c: Container) {
    w.node == Some(n) && w.container == Some(c.id)
  }

  lemma ShownIsNotMissing(w: Workload, n: NodeId, cs: seq<Container>, existing: set<ContainerId>)
    requires AskedAndShown(w, cs) && existing == set i | 0 <= i < |cs| :: cs[i].id
    ensures AfterSecondPass(w, n, existing) == w
  {
    var i :| 0 <= i < |cs| && cs[i].id == w.container.value;
    assert cs[i].id in existing;
  }

  /** What agreement with the report means for one listed container. */
  lemma AgreesInWords(w: Workload, n: NodeId, cs: seq<Container>, c: Container)
    requires ShownOn(w, n, c) && c in cs && (AskedAndShown(w, cs) || Agrees(w, cs)) && w.desired != Stopped
    requires Lifecycle(w)
    ensures c.status == "running" ==> w.actual == Running
    ensures c.status == "created" ==> w.actual == Scheduled
    ensures c.status != "running" && c.status != "created" ==> w.actual == Failed && !w.held
  {
    var i :| 0 <= i < |cs| && cs[i] == c;
    assert Reads(w, cs[i].status);
  }

  lemma SettledStays(a: Workload, b: Workload, n: NodeId, cs: seq<Container>)
    requires Repaired(a, b, n, cs) && a.node == Some(n) && Settles(a, cs)
    ensures b == a
  {
  }

  lemma BothPasses(a: Workload, mid: Workload, b: Workload, cs: seq<Container>, existing: set<ContainerId>, n: NodeId)
    requires Passed(a, mid, cs, |cs|) && existing == set i | 0 <= i < |cs| :: cs[i].id
    requires Settles(a, cs) ==> mid == a
    requires b == AfterSecondPass(mid, n, existing)
    ensures Repaired(a, b, n, cs)
    ensures ToggledBy(a, mid, cs, |cs|) && AskedAndShown(a, cs) ==> Toggles(a, b)
  {
    assert a.container.Some? ==> (a.container.value in existing <==> Listed(cs, a.container.value));
    if AskedAndShown(a, cs) {
      var i :| 0 <= i < |cs| && cs[i].id == a.container.value;
      assert a.container == Some(cs[i].id);
    }
  }

  /**
    Repair is idempotent exactly up to the excepted rows: a second repair against the same report changes and
    releases nothing of a row it left in order, and if the agents do as asked it leaves every row of the node
    as it is if and only if none of them was asked to stop and is still shown.
   */
  method RepairTwice(store: Postgres, client: NodeClient, n: NodeId) returns (ghost rows: Rows, ghost log: seq<Event>)
    requires store.Valid()
    requires n in client.listings && UniqueListing(client.listings[n])
    modifies store, client
    ensures store.Valid() && rows.Keys == store.workloads.Keys && log <= store.log
    ensures forall id :: id in rows && rows[id].node == Some(n) && !AskedAndShown(rows[id], client.listings[n]) ==>
      store.workloads[id] == rows[id] && LeftAlone(log, store.log, id)
    ensures client.reliable ==>
      ((forall id :: id in rows && rows[id].node == Some(n) ==> store.workloads[id] == rows[id])
       <==> (forall id :: id in rows && rows[id].node == Some(n) ==> !AskedAndShown(rows[id], client.listings[n])))
  {
    hide Run, LawfulRun, Sound, Agrees, LeftAlone, AskedAndShown, Repairs, Foreign;
    ghost var first := store.workloads;
    var _, _ := ReconcileNode(store, client, n);
    rows, log := store.workloads, store.log;
    forall id | id in rows && rows[id].node == Some(n) ensures first[id].node == Some(n) {
      RepairKeepsPlace(first[id], rows[id], n, client.listings[n]);
    }
    var _, _ := ReconcileNode(store, client, n);
  }

  lemma RepairKeepsPlace(a: Workload, b: Workload, n: NodeId, cs: seq<Container>)
    requires Repaired(a, b, n, cs)
    ensures b.node == a.node && b.container == a.container && b.desired == a.desired
  {
  }
}
