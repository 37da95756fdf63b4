/** The run service's own functions. */
module RunService {
  // service/runs.py, each as one uninterrupted call on the `run` table.

  import opened Common
  import opened RunRows
  import opened Packing
  import opened RunEvents
  import opened RunProtocol
  import Sql
  import Queries

  /** Ready rows under peek's optional filters; an empty backend filters nothing. */
  predicate PeekMatches(rows: Table, r: Run, backend: Option<string>, maxSeconds: Option<int>) {
    && Ready(r, rows)
    && (backend.Some? && backend.value != "" ==> BackendOk(r, backend.value))
    && (maxSeconds.Some? ==> r.estSeconds.None? || r.estSeconds.value <= maxSeconds.value)
  }

  function PeekIds(rows: Table, backend: Option<string>, maxSeconds: Option<int>): set<RunId> {
    set id | id in rows && PeekMatches(rows, rows[id], backend, maxSeconds)
  }

  function Peek(rows: Table, backend: Option<string>, maxSeconds: Option<int>, limit: nat): seq<RunId> {
    Top(rows, PeekIds(rows, backend, maxSeconds), limit)
  }

  /** Expired leases below the attempt limit are requeued, the rest are lost, and
      every other row is left alone. */
  function SweepTable(rows: Table, now: int, maxAttempts: int): Table {
    map id | id in rows ::
      if Requeues(rows[id], now, maxAttempts) then RequeueRow(rows[id])
      else if Loses(rows[id], now, maxAttempts) then LoseRow(rows[id])
      else rows[id]
  }

  /** Leasable rows whose lease is set and past. */
  function ExpiredIds(rows: Table, now: int): set<RunId> {
    set id | id in rows && Leasable(rows[id].status) && Expired(rows[id], now)
  }

  function RequeuedIds(rows: Table, now: int, maxAttempts: int): set<RunId> {
    set id | id in rows && Requeues(rows[id], now, maxAttempts)
  }

  function LostIds(rows: Table, now: int, maxAttempts: int): set<RunId> {
    set id | id in rows && Loses(rows[id], now, maxAttempts)
  }

  /** UPDATE ... WHERE id = ANY(claimed) */
  function WithClaims(rows: Table, claimed: seq<RunId>, worker: string, now: int, lease: int): Table {
    map id | id in rows :: if id in claimed then ClaimRow(rows[id], worker, now, lease) else rows[id]
  }

  lemma {:induction false} ClaimIsEvent(rows: Table, claimed: seq<RunId>, backend: string, session: int, worker: string, now: int, lease: int)
    ensures Apply(rows, ClaimedRuns(now, SetOf(claimed), backend, session, worker, now, lease))
         == if claimed == [] then rows else WithClaims(rows, claimed, worker, now, lease)
  {
    assert forall id :: id in SetOf(claimed) <==> id in claimed;
  }

  /** The queue's readiness in the columns: queued, every dependency there and completed. */
  predicate Claimable(rows: Table, r: Run) {
    r.status.Queued? && forall d | d in r.dependsOn :: d in rows && rows[d].status.Completed?
  }

  predicate ServedBy(r: Run, backend: string) {
    r.backend.None? || r.backend == Some("any") || r.backend == Some(backend)
  }

  predicate Wanted(rows: Table, r: Run, backend: Option<string>, maxSeconds: Option<int>) {
    && Claimable(rows, r)
    && (backend.Some? && backend.value != "" ==> ServedBy(r, backend.value))
    && (maxSeconds.Some? && r.estSeconds.Some? ==> r.estSeconds.value <= maxSeconds.value)
  }

  /** Higher priority, or the same and not younger. */
  predicate NotAfter(rows: Table, a: RunId, b: RunId)
    requires a in rows && b in rows
  {
    || rows[a].priority > rows[b].priority
    || (rows[a].priority == rows[b].priority && rows[a].createdAt <= rows[b].createdAt)
  }

  /** What peek_queue promises, read off the columns: distinct wanted runs, best first;
      a wanted run is left out only when the limit is reached, and then comes after all
      of them. */
  predicate PeekAnswer(rows: Table, backend: Option<string>, maxSeconds: Option<int>, limit: nat, ids: seq<RunId>) {
    && |ids| <= limit
    && (forall id | id in ids :: id in rows && Wanted(rows, rows[id], backend, maxSeconds))
    && (forall i, j | 0 <= i < j < |ids| :: ids[i] != ids[j] && NotAfter(rows, ids[i], ids[j]))
    && (forall left | left in rows && Wanted(rows, rows[left], backend, maxSeconds) && left !in ids ::
          |ids| == limit && forall id | id in ids :: NotAfter(rows, id, left))
  }

  lemma {:induction false} PeekIdsAreWanted(rows: Table, backend: Option<string>, maxSeconds: Option<int>, id: RunId)
    requires id in rows
    ensures id in PeekIds(rows, backend, maxSeconds) <==> Wanted(rows, rows[id], backend, maxSeconds)
  {
  }

  lemma {:induction false} TopInOrder(rows: Table, ids: set<RunId>, limit: nat)
    requires ids <= rows.Keys
    ensures var top := Top(rows, ids, limit);
      && |top| <= limit && (forall id | id in top :: id in ids)
      && (forall i, j | 0 <= i < j < |top| :: top[i] != top[j] && NotAfter(rows, top[i], top[j]))
      && (forall left | left in ids && left !in top :: |top| == limit && forall id | id in top :: NotAfter(rows, id, left))
  {
    var top := Top(rows, ids, limit);
    TopIsBest(rows, ids, limit);
    forall i, j | 0 <= i < j < |top| ensures top[i] != top[j] && NotAfter(rows, top[i], top[j]) {}
    forall left | left in ids && left !in top ensures |top| == limit {
      TopIsAll(rows, ids, limit);
    }
    forall id, left | id in top && left in ids && left !in top ensures NotAfter(rows, id, left) {}
  }

  lemma {:induction false} PeekInColumns(rows: Table, backend: Option<string>, maxSeconds: Option<int>, limit: nat)
    ensures PeekAnswer(rows, backend, maxSeconds, limit, Peek(rows, backend, maxSeconds, limit))
  {
    var wanted := PeekIds(rows, backend, maxSeconds);
    forall id | id in rows ensures id in wanted <==> Wanted(rows, rows[id], backend, maxSeconds) {
      PeekIdsAreWanted(rows, backend, maxSeconds, id);
    }
    TopInOrder(rows, wanted, limit);
  }

  /** What claim_queue promises of its choice, read off the columns: distinct ready runs
      that the backend may take, best first. */
  predicate ClaimAnswer(rows: Table, backend: string, ids: seq<RunId>) {
    && (forall id | id in ids :: id in rows && Claimable(rows, rows[id]) && ServedBy(rows[id], backend))
    && (forall i, j | 0 <= i < j < |ids| :: ids[i] != ids[j] && NotAfter(rows, ids[i], ids[j]))
  }

  lemma {:induction false} ReadyIdsAreClaimable(rows: Table, backend: string, id: RunId)
    requires id in rows
    ensures id in ReadyIds(rows, backend) <==> Claimable(rows, rows[id]) && ServedBy(rows[id], backend)
  {
  }

  /** The packer is given all such runs, in order. */
  lemma {:induction false} CandidatesInColumns(rows: Table, backend: string)
    ensures var order := OrderBy(rows, ReadyIds(rows, backend));
      && ClaimAnswer(rows, backend, order)
      && forall id | id in rows && Claimable(rows, rows[id]) && ServedBy(rows[id], backend) :: id in order
  {
    forall id | id in rows ensures id in ReadyIds(rows, backend) <==> Claimable(rows, rows[id]) && ServedBy(rows[id], backend) {
      ReadyIdsAreClaimable(rows, backend, id);
    }
    QueueOrder(rows, ReadyIds(rows, backend));
  }

  /** Its choice keeps their order. */
  lemma {:induction false} ClaimInColumns(rows: Table, backend: string, session: int)
    ensures ClaimAnswer(rows, backend, ClaimChoice(rows, backend, session))
  {
    var order := OrderBy(rows, ReadyIds(rows, backend));
    CandidatesInColumns(rows, backend);
    SelectInOrder(rows, backend, order, Mask(Costed(rows, order), session, session));
  }

  lemma {:induction false} PutFirst(rows: Table, backend: string, head: RunId, rest: seq<RunId>)
    requires ClaimAnswer(rows, backend, rest)
    requires head in rows && Claimable(rows, rows[head]) && ServedBy(rows[head], backend)
    requires forall id | id in rest :: id != head && NotAfter(rows, head, id)
    ensures ClaimAnswer(rows, backend, [head] + rest)
  {
    var all := [head] + rest;
    forall i, j | 0 <= i < j < |all| ensures all[i] != all[j] && NotAfter(rows, all[i], all[j]) {
      assert all[j] == rest[j - 1] && rest[j - 1] in rest;
      if i > 0 { assert all[i] == rest[i - 1]; }
    }
  }

  lemma {:induction false} SelectInOrder(rows: Table, backend: string, order: seq<RunId>, mask: seq<bool>)
    requires |mask| == |order| && ClaimAnswer(rows, backend, order)
    ensures ClaimAnswer(rows, backend, Select(Costed(rows, order), mask))
    ensures forall id | id in Select(Costed(rows, order), mask) :: id in order
  {
    var chosen := Select(Costed(rows, order), mask);
    if order != [] {
      assert Costed(rows, order)[1..] == Costed(rows, order[1..]);
      assert forall i | 0 <= i < |order[1..]| :: order[1..][i] == order[i + 1];
      SelectInOrder(rows, backend, order[1..], mask[1..]);
      var rest := Select(Costed(rows, order[1..]), mask[1..]);
      assert chosen == (if mask[0] then [order[0]] else []) + rest;
      forall id | id in rest ensures id != order[0] && NotAfter(rows, order[0], id) {
        var i :| 0 <= i < |order[1..]| && order[1..][i] == id;
      }
      if mask[0] { PutFirst(rows, backend, order[0], rest); }
    }
  }

  /** What sweep_expired_leases does to each row, read off the columns: claimed or
      running with a lease that is set and past, it goes back to the queue with its
      claim wiped and one more attempt counted, or at the limit is lost; any other row,
      one with a NULL lease included, stays. */
  predicate SweepAnswer(before: Table, after: Table, now: int, maxAttempts: int) {
    && after.Keys == before.Keys
    && forall id | id in before ::
         var r := before[id];
         after[id] ==
           if !((r.status.Claimed? || r.status.Running?) && r.leaseExpiresAt.Some? && r.leaseExpiresAt.value < now) then r
           else if r.claimAttempts + 1 < maxAttempts
           then r.(status := Queued, claimedBy := None, claimedAt := None, leaseExpiresAt := None,
                   claimAttempts := r.claimAttempts + 1)
           else r.(status := Lost)
  }

  lemma {:induction false} SweepInColumns(rows: Table, now: int, maxAttempts: int)
    ensures SweepAnswer(rows, SweepTable(rows, now, maxAttempts), now, maxAttempts)
  {
  }

  /** The first UPDATE of a sweep. */
  function RequeueExpired(rows: Table, now: int, maxAttempts: int): Table {
    map id | id in rows :: if Requeues(rows[id], now, maxAttempts) then RequeueRow(rows[id]) else rows[id]
  }

  /** The second UPDATE of a sweep. */
  function LoseExpired(rows: Table, now: int, maxAttempts: int): Table {
    map id | id in rows :: if Loses(rows[id], now, maxAttempts) then LoseRow(rows[id]) else rows[id]
  }

  /** The second reads what the first wrote, and finds the same rows to lose. */
  lemma {:induction false} SweepInTwo(rows: Table, now: int, maxAttempts: int)
    ensures var between := RequeueExpired(rows, now, maxAttempts);
      && LostIds(between, now, maxAttempts) == LostIds(rows, now, maxAttempts)
      && LoseExpired(between, now, maxAttempts) == SweepTable(rows, now, maxAttempts)
  {
  }

  class RunTable {
    var rows: Table
    /** The experiments, the taken (experiment, slug) pairs, and run_ref_seq. */
    var experiments: set<string>
    var slugs: set<(string, string)>
    var runSeq: nat
    /** The generated slug text for a sequence number. */
    const slugText: nat -> string

    constructor (slugText: nat -> string)
      ensures rows == map[] && experiments == {} && slugs == {} && runSeq == 0 && IdsIssued()
    {
      rows, experiments, slugs, runSeq := map[], {}, {}, 0;
      this.slugText := slugText;
    }

    /** Every id in the table came from the sequence. */
    predicate IdsIssued()
      reads this`rows, this`runSeq
    {
      forall id | id in rows :: id <= runSeq
    }

    /** A new row under a fresh id; the sequence moves on even when the slug is taken. */
    method EnqueueRun(experiment: string, slug: Option<string>, run: Run) returns (res: Result<RunId, ServiceError>)
      requires IdsIssued() && FreshRow(run)
      modifies this
      ensures IdsIssued() && experiments == old(experiments)
      ensures res == Err(NotFound) <==> experiment !in experiments
      ensures res == Err(NotFound) ==> rows == old(rows) && slugs == old(slugs) && runSeq == old(runSeq)
      ensures var text := if slug.Some? && slug.value != "" then slug.value else slugText(old(runSeq) + 2);
        && (experiment in experiments ==> (res == Err(Conflict) <==> (experiment, text) in old(slugs)))
        && (res.Ok? ==> slugs == old(slugs) + {(experiment, text)})
      ensures res.Err? ==> rows == old(rows) && slugs == old(slugs) && res.error != Invalid
      ensures res.Ok? ==> res.value !in old(rows) && rows == old(rows)[res.value := run] && res.value == old(runSeq) + 1
    {
      if experiment !in experiments { return Err(NotFound); }
      runSeq := runSeq + 1;
      var id := runSeq;
      var text: string;
      if slug.Some? && slug.value != "" {
        text := slug.value;
      } else {
        runSeq := runSeq + 1;
        text := slugText(runSeq);
      }
      if (experiment, text) in slugs { return Err(Conflict); }
      slugs := slugs + {(experiment, text)};
      rows := rows[id := run];
      return Ok(id);
    }

    /** A PATCH of any status, or of none. */
    method UpdateRun(id: RunId, patch: Option<Status>) returns (res: Result<Run, ServiceError>)
      modifies this`rows
      ensures id !in old(rows) ==> res == Err(NotFound) && rows == old(rows)
      ensures id in old(rows) ==>
        && rows == old(rows)[id := old(rows)[id].(status := if patch.Some? then patch.value else old(rows)[id].status)]
        && res == Ok(rows[id])
    {
      if id !in rows { return Err(NotFound); }
      rows := rows[id := PatchRow(rows[id], patch)];
      return Ok(rows[id]);
    }

    method CancelRun(id: RunId) returns (res: Result<Run, ServiceError>)
      modifies this`rows
      ensures res.Ok? <==> id in old(rows) && (old(rows)[id].status.Queued? || old(rows)[id].status.Claimed?)
      ensures res.Err? ==> res.error == Conflict && rows == old(rows)
      ensures res.Ok? ==> rows == old(rows)[id := old(rows)[id].(status := Cancelled)] && res.value == rows[id]
    {
      if id !in rows || !Cancellable(rows[id].status) { return Err(Conflict); }
      rows := rows[id := CancelRow(rows[id])];
      return Ok(rows[id]);
    }

    /** The heartbeat: extends the lease from now and turns claimed into running. */
    method RenewLease(id: RunId, now: int, lease: int) returns (res: Result<Run, ServiceError>)
      modifies this`rows
      ensures res.Ok? <==> id in old(rows) && (old(rows)[id].status.Claimed? || old(rows)[id].status.Running?)
      ensures res.Err? ==> res.error == Conflict && rows == old(rows)
      ensures res.Ok? ==>
        && rows == old(rows)[id := old(rows)[id].(status := Running, leaseExpiresAt := Some(now + lease))]
        && rows == Apply(old(rows), Renewed(now, id, now, lease))
        && res.value == rows[id]
    {
      if id !in rows || !Leasable(rows[id].status) { return Err(Conflict); }
      rows := rows[id := RenewRow(rows[id], now, lease)];
      return Ok(rows[id]);
    }

    method PeekQueue(backend: Option<string>, maxSeconds: Option<int>, limit: nat) returns (ids: seq<RunId>)
      ensures PeekAnswer(rows, backend, maxSeconds, limit, ids)
      ensures ids == Peek(rows, backend, maxSeconds, limit)
    {
      var found := OrderBy(rows, PeekIds(rows, backend, maxSeconds));
      ids := if limit < |found| then found[..limit] else found;
      PeekInColumns(rows, backend, maxSeconds, limit);
    }

    /** Select, pack, update: the atomic claim of the packer's choice. */
    method ClaimQueue(backend: string, session: int, worker: string, now: int, lease: int)
      returns (claimed: seq<RunId>)
      modifies this`rows
      ensures claimed == ClaimChoice(old(rows), backend, session)
      ensures ClaimAnswer(old(rows), backend, claimed)
      ensures rows.Keys == old(rows).Keys
      ensures forall id | id in rows && id !in claimed :: rows[id] == old(rows)[id]
      ensures forall id | id in rows && id in claimed ::
        rows[id] == old(rows)[id].(status := Claimed, claimedBy := Some(worker), claimedAt := Some(now),
                                   leaseExpiresAt := Some(now + lease))
      ensures rows == Apply(old(rows), ClaimedRuns(now, SetOf(claimed), backend, session, worker, now, lease))
    {
      var candidates := OrderBy(rows, ReadyIds(rows, backend));
      claimed := PackRunsBySessionBudget(Costed(rows, candidates), session);
      ClaimIsEvent(rows, claimed, backend, session, worker, now, lease);
      ClaimInColumns(rows, backend, session);
      if |claimed| > 0 {
        rows := WithClaims(rows, claimed, worker, now, lease);
      }
    }

    /** The two UPDATEs, the second reading what the first wrote. */
    method SweepExpiredLeases(now: int, maxAttempts: int) returns (requeued: nat, lost: nat)
      modifies this`rows
      ensures rows == SweepTable(old(rows), now, maxAttempts)
      ensures SweepAnswer(old(rows), rows, now, maxAttempts)
      ensures requeued == |RequeuedIds(old(rows), now, maxAttempts)|
      ensures lost == |LostIds(old(rows), now, maxAttempts)|
      ensures requeued + lost == |ExpiredIds(old(rows), now)|
    {
      SweepSplits(rows, now, maxAttempts);
      SweepInColumns(rows, now, maxAttempts);
      SweepInTwo(rows, now, maxAttempts);
      var first := RequeuedIds(rows, now, maxAttempts);
      rows := RequeueExpired(rows, now, maxAttempts);
      var second := LostIds(rows, now, maxAttempts);
      rows := LoseExpired(rows, now, maxAttempts);
      requeued, lost := |first|, |second|;
    }
  }

  /** Requeued and lost rows split exactly the rows with an expired lease. */
  lemma {:induction false} SweepSplits(rows: Table, now: int, maxAttempts: int)
    ensures var requeued, lost := RequeuedIds(rows, now, maxAttempts), LostIds(rows, now, maxAttempts);
      requeued !! lost && requeued + lost == ExpiredIds(rows, now)
      && |requeued| + |lost| == |ExpiredIds(rows, now)|
  {
    var requeued, lost := RequeuedIds(rows, now, maxAttempts), LostIds(rows, now, maxAttempts);
    assert requeued + lost == ExpiredIds(rows, now);
    assert requeued * lost == {};
  }

  /** Which runs are in a given status after a sweep. */
  lemma {:induction false} SweepMoves(rows: Table, now: int, maxAttempts: int, s: Status)
    ensures var before, after := WithStatus(rows, s), WithStatus(SweepTable(rows, now, maxAttempts), s);
      match s
      case Queued => after == before + RequeuedIds(rows, now, maxAttempts) && before !! RequeuedIds(rows, now, maxAttempts)
      case Lost => after == before + LostIds(rows, now, maxAttempts) && before !! LostIds(rows, now, maxAttempts)
      case Claimed => after == before - ExpiredIds(rows, now)
      case Running => after == before - ExpiredIds(rows, now)
      case _ => after == before
  {
  }

  lemma {:induction false} Gained(before: set<RunId>, after: set<RunId>, more: set<RunId>)
    requires after == before + more && before !! more
    ensures after - before == more && |after| == |before| + |more|
  {
  }

  /** What a sweep adds up to over the whole table: every expired lease turns up as
      exactly one newly queued or one newly lost run, and nothing else does. */
  lemma {:induction false} SweepConserves(rows: Table, now: int, maxAttempts: int)
    ensures var swept, expired := SweepTable(rows, now, maxAttempts), ExpiredIds(rows, now);
      var requeued, lost := WithStatus(swept, Queued) - WithStatus(rows, Queued), WithStatus(swept, Lost) - WithStatus(rows, Lost);
      && requeued !! lost && requeued + lost == expired
      && |WithStatus(swept, Queued)| + |WithStatus(swept, Lost)| == |WithStatus(rows, Queued)| + |WithStatus(rows, Lost)| + |expired|
  {
    var swept := SweepTable(rows, now, maxAttempts);
    SweepSplits(rows, now, maxAttempts);
    SweepMoves(rows, now, maxAttempts, Queued);
    SweepMoves(rows, now, maxAttempts, Lost);
    Gained(WithStatus(rows, Queued), WithStatus(swept, Queued), RequeuedIds(rows, now, maxAttempts));
    Gained(WithStatus(rows, Lost), WithStatus(swept, Lost), LostIds(rows, now, maxAttempts));
  }

  /** A swept table holds no expired lease, and sweeping it again changes nothing. */
  lemma {:induction false} SweepIsIdempotent(rows: Table, now: int, maxAttempts: int)
    ensures ExpiredIds(SweepTable(rows, now, maxAttempts), now) == {}
    ensures SweepTable(SweepTable(rows, now, maxAttempts), now, maxAttempts) == SweepTable(rows, now, maxAttempts)
  {
    var swept := SweepTable(rows, now, maxAttempts);
    assert forall id | id in swept :: !(Leasable(swept[id].status) && Expired(swept[id], now));
  }

  /** The uninterrupted sweep is the one the statement-by-statement sweep adds up to. */
  lemma {:induction false} SweepTableIsFullSweep(s: State)
    ensures Apply(s.rows, FullSweep(s)) == SweepTable(s.rows, s.clock, s.maxAttempts)
  {
    var e := FullSweep(s);
    forall id | id in s.rows
      ensures Apply(s.rows, e)[id] == SweepTable(s.rows, s.clock, s.maxAttempts)[id]
    {
      assert id in e.requeued <==> Requeues(s.rows[id], s.clock, s.maxAttempts);
      assert id in e.lost <==> Loses(s.rows[id], s.clock, s.maxAttempts);
    }
  }

  // ----- The statement peek_queue builds -----

  function TextOrNull(s: Option<string>): Sql.Value {
    if s.None? then Sql.Null else Sql.Text(s.value)
  }

  /** A run as the generated statement sees it. */
  function SqlRow(rows: Table, r: Run): Sql.Row {
    var cell := (col: Sql.Col) =>
      if col.ReqBackend? then TextOrNull(r.backend)
      else if col.EstSeconds? && r.estSeconds.Some? then Sql.Number(r.estSeconds.value)
      else Sql.Null;
    Sql.Row(cell, [], Ready(r, rows), _ => false, (_, _) => false, (_, _, _) => false)
  }

  /** Any statement that means what the builder promises keeps exactly the runs
      that peek_queue is specified to show. */
  lemma {:induction false} PeekQueryShowsPeek(rows: Table, r: Run, query: Queries.Query, backend: Option<string>,
                                              maxSeconds: Option<int>, limit: nat)
    requires Queries.Means(query, row => Queries.PeekMatches(row, backend, maxSeconds), limit, None)
    ensures Sql.Keeps(query.where_, query.params, SqlRow(rows, r)) <==> PeekMatches(rows, r, backend, maxSeconds)
  {
    var row := SqlRow(rows, r);
    assert Sql.Keeps(query.where_, query.params, row) <==> Queries.PeekMatches(row, backend, maxSeconds);
    assert row.cell(Sql.ReqBackend) == TextOrNull(r.backend);
    assert row.cell(Sql.EstSeconds) == if r.estSeconds.None? then Sql.Null else Sql.Number(r.estSeconds.value);
  }

  // ----- Claiming is packing what peek shows -----

  lemma {:induction false} CostedFilter(rows: Table, ids: seq<RunId>, p: RunId -> bool, q: Candidate -> bool)
    requires forall id | id in ids :: id in rows && p(id) == q(Candidate(id, rows[id].estSeconds))
    ensures forall id | id in Filter(p, ids) :: id in rows
    ensures Costed(rows, Filter(p, ids)) == Filter(q, Costed(rows, ids))
  {
    if ids != [] {
      assert Costed(rows, ids)[1..] == Costed(rows, ids[1..]);
      CostedFilter(rows, ids[1..], p, q);
      if p(ids[0]) {
        assert Costed(rows, [ids[0]] + Filter(p, ids[1..]))
            == [Candidate(ids[0], rows[ids[0]].estSeconds)] + Costed(rows, Filter(p, ids[1..]));
      }
    }
  }

  /** For a named backend, what claim_queue takes is the packer applied to the
      unlimited peek_queue(backend, session_seconds): the peek already hides the
      runs too long for the session, and the packer would have skipped them. */
  lemma {:induction false} ClaimPacksPeek(rows: Table, backend: string, session: int)
    requires backend != ""
    ensures var peeked := Peek(rows, Some(backend), Some(session), |rows|);
      (forall id | id in peeked :: id in rows)
      && ClaimChoice(rows, backend, session) == Pack(Costed(rows, peeked), session)
  {
    var ready := ReadyIds(rows, backend);
    var fits := (id: RunId) => id in rows && (rows[id].estSeconds.None? || rows[id].estSeconds.value <= session);
    var fitting := (c: Candidate) => c.est.None? || c.est.value <= session;
    var found := PeekIds(rows, Some(backend), Some(session));
    assert found == set id | id in ready && fits(id);
    OrderByFilter(rows, ready, found, fits);
    SubsetIsNoLarger(found, rows.Keys);
    var all := OrderBy(rows, ready);
    CostedFilter(rows, all, fits, fitting);
    HopelessAreInvisible(Costed(rows, all), session, session, fitting);
  }

  /** An empty backend is where the two part: on one ready run that asks for some
      named backend, peek filters nothing and claim still asks for the backend "". */
  lemma {:induction false} EmptyBackendPeeksMore(id: RunId, run: Run, session: int)
    requires run.status.Queued? && run.dependsOn == [] && run.estSeconds.None? && session > 0
    requires run.backend.Some? && run.backend.value != "any" && run.backend.value != ""
    ensures var rows: Table := map[id := run];
      var peeked := Peek(rows, Some(""), Some(session), |rows|);
      peeked == [id] && Pack(Costed(rows, peeked), session) == [id] && ClaimChoice(rows, "", session) == []
  {
    var rows: Table := map[id := run];
    assert ReadyIds(rows, "") == {};
    var found := PeekIds(rows, Some(""), Some(session));
    assert found == {id};
    OrderOfOne(rows, id);
    PackOneFree(id, session);
    assert Costed(rows, [id]) == [Candidate(id, None)];
  }

  /** What a claim takes is what the packer makes of the unlimited peek. */
  ghost predicate ClaimIsPackedPeek(rows: Table, backend: string, session: int) {
    var peeked := Peek(rows, Some(backend), Some(session), |rows|);
    (forall id | id in peeked :: id in rows) && ClaimChoice(rows, backend, session) == Pack(Costed(rows, peeked), session)
  }

  /** That holds of every table and session exactly for the named backends. */
  lemma {:induction false} ClaimPacksPeekExactly(backend: string)
    ensures (forall rows: Table, session :: ClaimIsPackedPeek(rows, backend, session)) <==> backend != ""
  {
    if backend != "" {
      forall rows: Table, session ensures ClaimIsPackedPeek(rows, backend, session) { ClaimPacksPeek(rows, backend, session); }
    } else {
      var run := PLAIN_RUN.(backend := Some("gpu"));
      EmptyBackendPeeksMore(0, run, 1);
      var rows: Table := map[0 := run];
      assert !ClaimIsPackedPeek(rows, "", 1);
    }
  }
}
