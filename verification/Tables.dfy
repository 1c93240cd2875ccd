/**
  Listing, counting and summing the workload table.

  The controllers insert every row with the zero `created_at`, so `ORDER BY created_at` leaves the order
  of a listing open. A listing is therefore any duplicate-free enumeration of the rows asked for, and a
  property proved of a listing holds for every order the database may pick.
 */
module Tables {
  import opened Model

  // ---- Listings ----

  ghost predicate Keyed(rows: Rows) {
    forall id :: id in rows ==> rows[id].id == id
  }

  ghost predicate Distinct(ws: seq<Workload>) {
    forall i, j :: 0 <= i < j < |ws| ==> ws[i].id != ws[j].id
  }

  /** `ws` is what `ListWorkloadsByService` may return. */
  ghost predicate Lists(ws: seq<Workload>, rows: Rows, s: ServiceId) {
    && Distinct(ws)
    && (forall i :: 0 <= i < |ws| ==> ws[i].id in rows && rows[ws[i].id] == ws[i] && ws[i].service == s)
    && (forall id :: id in rows && rows[id].service == s ==> rows[id] in ws)
  }

  // ---- Classes of rows and their counts ----

  /** The groups of workloads that the controllers count or collect, relative to a service version. */
  datatype Group =
    | AnyActive
    | OldActive(version: int)
    | NewActive(version: int)
    | ReplicaActive(version: int)
    | RunningActive
    | RunningAt(version: int)
    | FailedAt(version: int)

  predicate In(g: Group, w: Workload) {
    match g
    case AnyActive => IsActive(w)
    case OldActive(v) => w.version < v && IsActive(w)
    case NewActive(v) => w.version == v && IsActive(w)
    case ReplicaActive(v) => (w.version == 0 || w.version == v) && IsActive(w)
    case RunningActive => w.actual.Running? && w.desired != Stopped
    case RunningAt(v) => w.version == v && w.actual.Running?
    case FailedAt(v) => w.version == v && w.actual.Failed?
  }

  /** The groups, column by column. */
  lemma GroupsByColumns(w: Workload, v: int)
    ensures var active := (w.actual == Pending || w.actual == Scheduled || w.actual == Running) && w.desired != Stopped;
      && (In(AnyActive, w) <==> active)
      && (In(OldActive(v), w) <==> active && w.version < v)
      && (In(NewActive(v), w) <==> active && w.version == v)
      && (In(ReplicaActive(v), w) <==> active && (w.version == 0 || w.version == v))
      && (In(RunningActive, w) <==> w.actual == Running && w.desired != Stopped)
      && (In(RunningAt(v), w) <==> w.actual == Running && w.version == v)
      && (In(FailedAt(v), w) <==> w.actual == Failed && w.version == v)
  {
  }

  function Filter(ws: seq<Workload>, g: Group): seq<Workload> {
    if |ws| == 0 then []
    else Filter(ws[..|ws| - 1], g) + (if In(g, ws[|ws| - 1]) then [ws[|ws| - 1]] else [])
  }

  ghost function Members(rows: Rows, s: ServiceId, g: Group): set<WorkloadId> {
    set id | id in rows && rows[id].service == s && In(g, rows[id])
  }

  ghost function Census(rows: Rows, s: ServiceId, g: Group): nat {
    |Members(rows, s, g)|
  }

  ghost function IdsOf(ws: seq<Workload>): set<WorkloadId> {
    set i | 0 <= i < |ws| :: ws[i].id
  }

  lemma {:induction false} FilterKeepsGroup(ws: seq<Workload>, g: Group)
    ensures forall w :: w in Filter(ws, g) <==> w in ws && In(g, w)
    ensures Distinct(ws) ==> Distinct(Filter(ws, g))
    ensures |Filter(ws, g)| <= |ws|
  {
    if |ws| > 0 {
      var init, last := ws[..|ws| - 1], ws[|ws| - 1];
      FilterKeepsGroup(init, g);
      assert forall w :: w in ws <==> w in init || w == last by {
        assert ws == init + [last];
      }
      hide In;
      if Distinct(ws) {
        DistinctPrefix(ws);
        DistinctSnoc(Filter(init, g), last);
      }
    }
  }

  lemma DistinctPrefix(ws: seq<Workload>)
    requires Distinct(ws) && |ws| > 0
    ensures Distinct(ws[..|ws| - 1])
    ensures forall w :: w in ws[..|ws| - 1] ==> w.id != ws[|ws| - 1].id
  {
    forall w | w in ws[..|ws| - 1] ensures w.id != ws[|ws| - 1].id {
      var i :| 0 <= i < |ws| - 1 && ws[i] == w;
    }
  }

  lemma DistinctSnoc(ws: seq<Workload>, w: Workload)
    requires Distinct(ws) && forall x :: x in ws ==> x.id != w.id
    ensures Distinct(ws + [w])
  {
  }

  lemma {:induction false} IdsOfSize(ws: seq<Workload>)
    requires Distinct(ws)
    ensures |IdsOf(ws)| == |ws|
  {
    if |ws| > 0 {
      var init, last := ws[..|ws| - 1], ws[|ws| - 1];
      IdsOfSize(init);
      assert IdsOf(ws) == IdsOf(init) + {last.id} by {
        forall id | id in IdsOf(ws) ensures id in IdsOf(init) + {last.id} {
          var i :| 0 <= i < |ws| && ws[i].id == id;
          if i < |init| { assert init[i].id == id; }
        }
        forall id | id in IdsOf(init) ensures id in IdsOf(ws) {
          var i :| 0 <= i < |init| && init[i].id == id;
          assert ws[i].id == id;
        }
        assert ws[|ws| - 1].id in IdsOf(ws);
      }
      assert last.id !in IdsOf(init);
    }
  }

  /** Counting a group along any listing counts that group in the table. */
  lemma ListingCounts(ws: seq<Workload>, rows: Rows, s: ServiceId, g: Group)
    requires Keyed(rows) && Lists(ws, rows, s)
    ensures |Filter(ws, g)| == Census(rows, s, g)
    ensures IdsOf(Filter(ws, g)) == Members(rows, s, g)
  {
    var f := Filter(ws, g);
    FilterKeepsGroup(ws, g);
    IdsOfSize(f);
    forall id | id in IdsOf(f) ensures id in Members(rows, s, g) {
      var i :| 0 <= i < |f| && f[i].id == id;
      assert f[i] in ws;
    }
    forall id | id in Members(rows, s, g) ensures id in IdsOf(f) {
      assert rows[id] in f;
    }
    assert IdsOf(f) == Members(rows, s, g);
  }

  predicate Belongs(w: Workload, s: ServiceId, g: Group) {
    w.service == s && In(g, w)
  }

  lemma MembersAfterWrite(rows: Rows, id: WorkloadId, w: Workload, s: ServiceId, g: Group)
    ensures Belongs(w, s, g) ==> Members(rows[id := w], s, g) == Members(rows, s, g) + {id}
    ensures !Belongs(w, s, g) ==> Members(rows[id := w], s, g) == Members(rows, s, g) - {id}
    ensures id in Members(rows, s, g) <==> id in rows && Belongs(rows[id], s, g)
  {
    hide In;
    var after := rows[id := w];
    forall k | k != id ensures k in Members(after, s, g) <==> k in Members(rows, s, g) {
      assert k in after <==> k in rows;
    }
    assert id in after && after[id] == w;
  }

  /** Writing one row changes the census of a group by that row alone. */
  lemma CensusAfterWrite(rows: Rows, id: WorkloadId, w: Workload, s: ServiceId, g: Group)
    ensures Census(rows[id := w], s, g)
         == Census(rows, s, g)
          - (if id in rows && Belongs(rows[id], s, g) then 1 else 0)
          + (if Belongs(w, s, g) then 1 else 0)
  {
    hide In, Members;
    MembersAfterWrite(rows, id, w, s, g);
    var before := Members(rows, s, g);
    if id in before {
      assert before == (before - {id}) + {id};
      assert before + {id} == before;
    } else {
      assert before - {id} == before;
    }
  }

  // ---- Resource sums ----

  /** What a row is charged for: the state it is in, or the reservation it still holds. */
  datatype Basis = ByState | ByHold

  predicate Counted(w: Workload, b: Basis) {
    match b
    case ByState => InUse(w.actual)
    case ByHold => w.held
  }

  function Charge(w: Workload, n: NodeId, d: Dim, b: Basis): nat {
    if w.node == Some(n) && Counted(w, b) then w.Need(d) else 0
  }

  ghost function Pick(rows: Rows): WorkloadId
    requires |rows| > 0
    ensures Pick(rows) in rows
  {
    assert rows.Keys != {};
    var id :| id in rows.Keys;
    id
  }

  /** The sum, over the whole table, of the requests of the counted rows on node `n`. */
  ghost function Sum(rows: Rows, n: NodeId, d: Dim, b: Basis): nat
    decreases |rows|
  {
    if |rows| == 0 then 0
    else var id := Pick(rows); Charge(rows[id], n, d, b) + Sum(rows - {id}, n, d, b)
  }

  lemma {:induction false} SumWithout(rows: Rows, id: WorkloadId, n: NodeId, d: Dim, b: Basis)
    requires id in rows
    ensures Sum(rows, n, d, b) == Charge(rows[id], n, d, b) + Sum(rows - {id}, n, d, b)
    decreases |rows|
  {
    assert |rows| > 0 by { assert rows.Keys != {}; }
    var k := Pick(rows);
    if k != id {
      SumWithout(rows - {k}, id, n, d, b);
      SumWithout(rows - {id}, k, n, d, b);
      assert rows - {k} - {id} == rows - {id} - {k};
    }
  }

  /** Writing one row changes a sum by the difference of that row's charges. */
  lemma SumAfterWrite(rows: Rows, id: WorkloadId, w: Workload, n: NodeId, d: Dim, b: Basis)
    ensures Sum(rows[id := w], n, d, b)
         == Sum(rows, n, d, b) - (if id in rows then Charge(rows[id], n, d, b) else 0) + Charge(w, n, d, b)
  {
    SumWithout(rows[id := w], id, n, d, b);
    if id in rows {
      SumWithout(rows, id, n, d, b);
      assert rows[id := w] - {id} == rows - {id};
    } else {
      assert rows[id := w] - {id} == rows;
    }
  }

  lemma {:induction false} SumPointwise(x: Rows, y: Rows, n: NodeId, d: Dim, b: Basis)
    requires x.Keys == y.Keys
    requires forall id :: id in x ==> Charge(x[id], n, d, b) == Charge(y[id], n, d, b)
    ensures Sum(x, n, d, b) == Sum(y, n, d, b)
    decreases |x|
  {
    if |x| > 0 {
      var k := Pick(x);
      SumWithout(y, k, n, d, b);
      SumPointwise(x - {k}, y - {k}, n, d, b);
    } else {
      assert y.Keys == {};
      assert |y| == 0;
    }
  }

  lemma {:induction false} SumOfNothing(rows: Rows, n: NodeId, d: Dim, b: Basis)
    requires forall id :: id in rows ==> Charge(rows[id], n, d, b) == 0
    ensures Sum(rows, n, d, b) == 0
    decreases |rows|
  {
    if |rows| > 0 {
      SumOfNothing(rows - {Pick(rows)}, n, d, b);
    }
  }
}
