/** Rows of the `run` table. */
module RunRows {
  // The readiness test and the row updates that the queue's SQL statements perform
  // (service/runs.py).

  import opened Common

  /** Run ids: only equality and one fixed total order matter to the queue. */
  type RunId = nat

  datatype Status = Queued | Claimed | Running | Completed | Failed | Killed | Lost | Cancelled

  /** The columns the queue reads or writes. `backend` is the text under
      requirements->>'backend'; times are instants on one integer scale. */
  datatype Run = Run(
    status: Status,
    priority: int,
    createdAt: int,
    dependsOn: seq<RunId>,
    backend: Option<string>,
    estSeconds: Option<int>,
    claimedBy: Option<string>,
    claimedAt: Option<int>,
    leaseExpiresAt: Option<int>,
    claimAttempts: nat)

  type Table = map<RunId, Run>

  /** A new run that asks for nothing in particular. */
  const PLAIN_RUN: Run := Run(Queued, 0, 0, [], None, None, None, None, None, 0)

  predicate Leasable(s: Status) { s.Claimed? || s.Running? }

  predicate Cancellable(s: Status) { s.Queued? || s.Claimed? }

  /** The statuses a worker reports when its run ends. */
  predicate Worked(s: Status) { s.Completed? || s.Failed? || s.Killed? }

  /** Every dependency exists and has completed; a missing one counts as unmet. */
  predicate DepsMet(deps: seq<RunId>, rows: Table) {
    forall d | d in deps :: d in rows && rows[d].status.Completed?
  }

  /** A row is ready when queued with its dependencies met in `rows`. */
  predicate Ready(r: Run, rows: Table) {
    r.status.Queued? && DepsMet(r.dependsOn, rows)
  }

  predicate BackendOk(r: Run, backend: string) {
    r.backend.None? || r.backend.value == "any" || r.backend.value == backend
  }

  /** `lease_expires_at < now()`: never true of a NULL lease. */
  predicate Expired(r: Run, now: int) {
    r.leaseExpiresAt.Some? && r.leaseExpiresAt.value < now
  }

  predicate Requeues(r: Run, now: int, maxAttempts: int) {
    Leasable(r.status) && Expired(r, now) && r.claimAttempts + 1 < maxAttempts
  }

  predicate Loses(r: Run, now: int, maxAttempts: int) {
    Leasable(r.status) && Expired(r, now) && r.claimAttempts + 1 >= maxAttempts
  }

  function ClaimRow(r: Run, worker: string, now: int, lease: int): Run {
    r.(status := Claimed, claimedBy := Some(worker), claimedAt := Some(now), leaseExpiresAt := Some(now + lease))
  }

  function RenewRow(r: Run, now: int, lease: int): Run {
    r.(leaseExpiresAt := Some(now + lease), status := if r.status.Claimed? then Running else r.status)
  }

  function RequeueRow(r: Run): Run {
    r.(status := Queued, claimedBy := None, claimedAt := None, leaseExpiresAt := None,
       claimAttempts := r.claimAttempts + 1)
  }

  function LoseRow(r: Run): Run { r.(status := Lost) }

  function CancelRow(r: Run): Run { r.(status := Cancelled) }

  /** COALESCE($2, status): a PATCH without a status keeps the old one. */
  function PatchRow(r: Run, status: Option<Status>): Run {
    if status.None? then r else r.(status := status.value)
  }

  // ----- ORDER BY r.priority DESC, r.created_at, with the id as the fixed tie order -----

  predicate AtMost(rows: Table, a: RunId, b: RunId)
    requires a in rows && b in rows
  {
    var x, y := rows[a], rows[b];
    x.priority > y.priority
    || (x.priority == y.priority && (x.createdAt < y.createdAt || (x.createdAt == y.createdAt && a <= b)))
  }

  predicate IsFirst(rows: Table, ids: set<RunId>, m: RunId)
    requires ids <= rows.Keys
  {
    m in ids && forall k | k in ids :: AtMost(rows, m, k)
  }

  lemma {:induction false} FirstExists(rows: Table, ids: set<RunId>)
    requires ids != {} && ids <= rows.Keys
    ensures exists m :: IsFirst(rows, ids, m)
  {
    var le := (a: RunId, b: RunId) => a in rows && b in rows && AtMost(rows, a, b);
    LeastExists(le, ids);
    var m :| IsLeast(le, ids, m);
    assert forall k | k in ids :: le(m, k);
    assert IsFirst(rows, ids, m);
  }

  function First(rows: Table, ids: set<RunId>): (m: RunId)
    requires ids != {} && ids <= rows.Keys
    ensures IsFirst(rows, ids, m)
  {
    FirstExists(rows, ids);
    var m :| m in ids && IsFirst(rows, ids, m);
    m
  }

  /** The ids of a result set in ORDER BY order. */
  function OrderBy(rows: Table, ids: set<RunId>): (r: seq<RunId>)
    requires ids <= rows.Keys
    ensures forall k :: k in r <==> k in ids
    ensures forall i, j | 0 <= i < j < |r| :: r[i] != r[j] && AtMost(rows, r[i], r[j])
    ensures |r| == |ids|
    decreases |ids|
  {
    if ids == {} then [] else
      var m := First(rows, ids);
      assert |ids - {m}| == |ids| - 1;
      var rest := OrderBy(rows, ids - {m});
      assert forall k :: k in [m] + rest <==> k in ids;
      [m] + rest
  }

  /** The order in the columns themselves: higher priority first, then the older row,
      and rows equal in both by id. */
  lemma {:induction false} QueueOrder(rows: Table, ids: set<RunId>)
    requires ids <= rows.Keys
    ensures var r := OrderBy(rows, ids);
      forall i, j | 0 <= i < j < |r| ::
        || rows[r[i]].priority > rows[r[j]].priority
        || (rows[r[i]].priority == rows[r[j]].priority && rows[r[i]].createdAt < rows[r[j]].createdAt)
        || (rows[r[i]].priority == rows[r[j]].priority && rows[r[i]].createdAt == rows[r[j]].createdAt && r[i] < r[j])
  {
    var r := OrderBy(rows, ids);
    forall i, j | 0 <= i < j < |r| ensures AtMost(rows, r[i], r[j]) && r[i] != r[j] && r[i] in ids && r[j] in ids {}
  }

  lemma {:induction false} FirstIsUnique(rows: Table, ids: set<RunId>, m: RunId)
    requires ids <= rows.Keys && IsFirst(rows, ids, m)
    ensures First(rows, ids) == m
  {
    var m' := First(rows, ids);
    assert AtMost(rows, m', m) && AtMost(rows, m, m');
  }

  /** Narrowing a WHERE clause drops rows from the ordered result and moves none. */
  lemma {:induction false} OrderByFilter(rows: Table, ids: set<RunId>, kept: set<RunId>, p: RunId -> bool)
    requires ids <= rows.Keys
    requires kept == set k | k in ids && p(k)
    ensures OrderBy(rows, kept) == Filter(p, OrderBy(rows, ids))
    decreases |ids|
  {
    if ids == {} {
      assert kept == {};
    } else {
      var m := First(rows, ids);
      var rest := ids - {m};
      var keptRest := kept - {m};
      OrderByFilter(rows, rest, keptRest, p);
      assert OrderBy(rows, ids) == [m] + OrderBy(rows, rest);
      if p(m) {
        FirstIsUnique(rows, kept, m);
        assert OrderBy(rows, kept) == [m] + OrderBy(rows, keptRest);
      } else {
        assert kept == keptRest;
      }
    }
  }

  lemma {:induction false} OrderOfOne(rows: Table, id: RunId)
    requires id in rows
    ensures OrderBy(rows, {id}) == [id]
  {
    var order := OrderBy(rows, {id});
    assert |order| == 1 && order[0] in order;
  }

  /** ORDER BY ... LIMIT */
  function Top(rows: Table, ids: set<RunId>, limit: nat): seq<RunId>
    requires ids <= rows.Keys
  {
    var order := OrderBy(rows, ids);
    if limit < |order| then order[..limit] else order
  }

  /** The limit cuts the ordered rows: the cut part stays in order, and what is left
      out stands behind all of it. */
  lemma {:induction false} TopCuts(rows: Table, ids: set<RunId>, limit: nat)
    requires ids <= rows.Keys
    ensures var order, top := OrderBy(rows, ids), Top(rows, ids, limit);
      && |top| == (if limit < |ids| then limit else |ids|)
      && (forall i | 0 <= i < |top| :: top[i] == order[i])
      && (forall id | id in top :: id in ids)
      && (forall left | left in ids && left !in top :: exists j :: |top| <= j < |order| && order[j] == left)
  {
    var order, top := OrderBy(rows, ids), Top(rows, ids, limit);
    assert forall k | 0 <= k < |top| :: top[k] == order[k] && order[k] in ids;
    forall left | left in ids && left !in top ensures exists j :: |top| <= j < |order| && order[j] == left {
      var j :| 0 <= j < |order| && order[j] == left;
    }
  }

  /** The selected rows up to the limit, highest priority and then oldest first; no row
      left out has a higher priority than one returned, nor the same and an earlier
      creation. */
  lemma {:induction false} TopIsBest(rows: Table, ids: set<RunId>, limit: nat)
    requires ids <= rows.Keys
    ensures var top := Top(rows, ids, limit);
      && |top| == (if limit < |ids| then limit else |ids|)
      && (forall id | id in top :: id in ids)
      && (forall i, j | 0 <= i < j < |top| ::
            || rows[top[i]].priority > rows[top[j]].priority
            || (rows[top[i]].priority == rows[top[j]].priority
                && (rows[top[i]].createdAt < rows[top[j]].createdAt
                    || (rows[top[i]].createdAt == rows[top[j]].createdAt && top[i] < top[j]))))
      && (forall id, left | id in top && left in ids && left !in top ::
            || rows[id].priority > rows[left].priority
            || (rows[id].priority == rows[left].priority && rows[id].createdAt <= rows[left].createdAt))
  {
    var order, top := OrderBy(rows, ids), Top(rows, ids, limit);
    TopCuts(rows, ids, limit);
    QueueOrder(rows, ids);
    forall id, left | id in top && left in ids && left !in top
      ensures rows[id].priority > rows[left].priority
              || (rows[id].priority == rows[left].priority && rows[id].createdAt <= rows[left].createdAt)
    {
      var i :| 0 <= i < |top| && top[i] == id;
      var j :| |top| <= j < |order| && order[j] == left;
      assert order[i] == id && i < j;
    }
  }

  /** Below the limit nothing is left out. */
  lemma {:induction false} TopIsAll(rows: Table, ids: set<RunId>, limit: nat)
    requires ids <= rows.Keys
    ensures |Top(rows, ids, limit)| <= limit
    ensures |Top(rows, ids, limit)| < limit ==> forall id | id in ids :: id in Top(rows, ids, limit)
  {
  }
}
