/** The serial specification of the run queue. */
module RunEvents {
  // A log of atomic events, each legal on the table that the earlier ones leave behind.

  import opened Common
  import opened RunRows

  /** One committed change of the `run` table. `at` is the clock at commit;
      `now` is the committing transaction's own start time. */
  datatype Event =
    | Enqueued(at: int, id: RunId, run: Run)
    | ClaimedRuns(at: int, ids: set<RunId>, backend: string, session: int, worker: string, now: int, lease: int)
    | Renewed(at: int, id: RunId, now: int, lease: int)
    | Finished(at: int, id: RunId, outcome: Status)
    | CancelledRun(at: int, id: RunId)
    | Patched(at: int, id: RunId, patch: Option<Status>)
    | Swept(at: int, requeued: set<RunId>, lost: set<RunId>, now: int)

  /** A new row takes the column defaults for its lease fields and attempts. */
  predicate FreshRow(r: Run) {
    r.claimAttempts == 0 && r.claimedBy.None? && r.claimedAt.None? && r.leaseExpiresAt.None?
  }

  predicate Legal(rows: Table, e: Event, maxAttempts: int) {
    match e
    case Enqueued(_, id, run) => id !in rows && FreshRow(run)
    case ClaimedRuns(at, ids, _, _, _, now, _) => now <= at && forall id | id in ids :: id in rows && rows[id].status.Queued?
    case Renewed(at, id, now, _) => now <= at && id in rows && Leasable(rows[id].status)
    case Finished(_, id, outcome) => id in rows && Leasable(rows[id].status) && Worked(outcome)
    case CancelledRun(_, id) => id in rows && Cancellable(rows[id].status)
    case Patched(_, id, _) => id in rows
    case Swept(at, requeued, lost, now) =>
      && now <= at
      && (forall id | id in requeued :: id in rows && Requeues(rows[id], now, maxAttempts))
      && (forall id | id in lost :: id in rows && Loses(rows[id], now, maxAttempts))
  }

  /** Which PATCHes clients make: of a row in this status, to that one (None when the
      PATCH carries no status). The server itself allows all of them. */
  type PatchRule = (Status, Option<Status>) -> bool

  /** No PATCH puts a run back into the queue. */
  ghost predicate NeverQueues(rule: PatchRule) {
    forall s | rule(s, Some(Queued)) :: s.Queued?
  }

  /** No PATCH takes a run out of completed. */
  ghost predicate KeepsCompleted(rule: PatchRule) {
    forall p | rule(Completed, Some(p)) :: p.Completed?
  }

  predicate Waiting(s: Status) { s.Queued? || s.Cancelled? }

  /** No PATCH moves a queued or cancelled run on, as only a claim should. */
  ghost predicate KeepsWaiting(rule: PatchRule) {
    forall s, p | rule(s, Some(p)) && Waiting(s) :: Waiting(p)
  }

  /** No PATCH makes a run claimed or running that was neither. */
  ghost predicate NeverRevives(rule: PatchRule) {
    forall s, p | rule(s, Some(p)) && Leasable(p) :: Leasable(s)
  }

  /** No PATCH changes how a run has ended. */
  ghost predicate KeepsEnded(rule: PatchRule) {
    forall s, p | rule(s, Some(p)) && Terminal(s) :: p == s
  }

  /** No PATCH takes a run back along queued, claimed, running, ended. */
  ghost predicate NeverRaises(rule: PatchRule) {
    forall s, p | rule(s, Some(p)) :: Rank(p) <= Rank(s)
  }

  /** What the protocol adds: PATCHes follow the rule, and when no PATCH undoes a
      completion, claims are only of runs whose dependencies are met at the claim. */
  ghost predicate Protocol(rows: Table, e: Event, rule: PatchRule) {
    && (e.Patched? && e.id in rows ==> rule(rows[e.id].status, e.patch))
    && (KeepsCompleted(rule) && e.ClaimedRuns? ==> forall id | id in e.ids && id in rows :: DepsMet(rows[id].dependsOn, rows))
  }

  function Touched(e: Event): set<RunId> {
    match e
    case Enqueued(_, id, _) => {id}
    case ClaimedRuns(_, ids, _, _, _, _, _) => ids
    case Renewed(_, id, _, _) => {id}
    case Finished(_, id, _) => {id}
    case CancelledRun(_, id) => {id}
    case Patched(_, id, _) => {id}
    case Swept(_, requeued, lost, _) => requeued + lost
  }

  function Apply(rows: Table, e: Event): Table {
    match e
    case Enqueued(_, id, run) => rows[id := run]
    case ClaimedRuns(_, ids, _, _, worker, now, lease) =>
      map id | id in rows :: if id in ids then ClaimRow(rows[id], worker, now, lease) else rows[id]
    case Renewed(_, id, now, lease) =>
      if id in rows then rows[id := RenewRow(rows[id], now, lease)] else rows
    case Finished(_, id, outcome) =>
      if id in rows then rows[id := PatchRow(rows[id], Some(outcome))] else rows
    case CancelledRun(_, id) =>
      if id in rows then rows[id := CancelRow(rows[id])] else rows
    case Patched(_, id, patch) =>
      if id in rows then rows[id := PatchRow(rows[id], patch)] else rows
    case Swept(_, requeued, lost, _) =>
      map id | id in rows ::
        if id in requeued then RequeueRow(rows[id]) else if id in lost then LoseRow(rows[id]) else rows[id]
  }

  ghost predicate Allowed(rows: Table, e: Event, maxAttempts: int, rule: PatchRule) {
    Legal(rows, e, maxAttempts) && Protocol(rows, e, rule)
  }

  /** The table a log leaves behind, or None once an event is not allowed. */
  ghost function Replay(log: seq<Event>, maxAttempts: int, rule: PatchRule): Option<Table> {
    if log == [] then Some(map[]) else
      var before := Replay(log[..|log| - 1], maxAttempts, rule);
      var e := log[|log| - 1];
      if before.Some? && Allowed(before.value, e, maxAttempts, rule) then Some(Apply(before.value, e)) else None
  }

  ghost predicate Serial(log: seq<Event>, maxAttempts: int, rule: PatchRule) {
    Replay(log, maxAttempts, rule).Some?
  }

  /** The table just before event `k`. */
  ghost function Before(log: seq<Event>, k: nat, maxAttempts: int, rule: PatchRule): Table
    requires k <= |log| && Serial(log, maxAttempts, rule)
  {
    PrefixSerial(log, k, maxAttempts, rule);
    Replay(log[..k], maxAttempts, rule).value
  }

  lemma {:induction false} PrefixSerial(log: seq<Event>, k: nat, maxAttempts: int, rule: PatchRule)
    requires k <= |log| && Serial(log, maxAttempts, rule)
    ensures Serial(log[..k], maxAttempts, rule)
    decreases |log|
  {
    if k < |log| {
      PrefixSerial(log[..|log| - 1], k, maxAttempts, rule);
      assert log[..|log| - 1][..k] == log[..k];
    } else {
      assert log[..k] == log;
    }
  }

  /** Each event of a serial log is allowed on the table before it, and takes it
      to the table before the next one. */
  lemma {:induction false} StepAt(log: seq<Event>, k: nat, maxAttempts: int, rule: PatchRule)
    requires k < |log| && Serial(log, maxAttempts, rule)
    ensures Allowed(Before(log, k, maxAttempts, rule), log[k], maxAttempts, rule)
    ensures Before(log, k + 1, maxAttempts, rule) == Apply(Before(log, k, maxAttempts, rule), log[k])
  {
    PrefixSerial(log, k + 1, maxAttempts, rule);
    assert log[..k + 1][..k] == log[..k];
  }

  lemma {:induction false} ReplayAppend(log: seq<Event>, e: Event, maxAttempts: int, rule: PatchRule)
    requires Serial(log, maxAttempts, rule)
    requires Allowed(Replay(log, maxAttempts, rule).value, e, maxAttempts, rule)
    ensures Replay(log + [e], maxAttempts, rule) == Some(Apply(Replay(log, maxAttempts, rule).value, e))
  {
    assert (log + [e])[..|log|] == log;
  }

  // ----- One event -----

  /** Rows outside the event's reach are untouched, no row disappears, and what
      a run depends on is never rewritten. */
  lemma {:induction false} ApplyFrame(rows: Table, e: Event, maxAttempts: int)
    requires Legal(rows, e, maxAttempts)
    ensures rows.Keys <= Apply(rows, e).Keys
    ensures forall id | id in rows && id !in Touched(e) :: Apply(rows, e)[id] == rows[id]
    ensures forall id | id in rows :: Apply(rows, e)[id].dependsOn == rows[id].dependsOn
    ensures forall id | id in Apply(rows, e) && id !in rows :: e.Enqueued? && e.id == id
  {
  }

  /** Which columns an event leaves alone: what a run is and asks for never changes, who
      holds it only by a claim or a requeue, its lease only by those and a renewal, and
      its attempts only by a requeue. */
  lemma {:induction false} ColumnsKept(rows: Table, e: Event, maxAttempts: int, id: RunId)
    requires Legal(rows, e, maxAttempts) && id in rows
    ensures id in Apply(rows, e)
    ensures var r, r' := rows[id], Apply(rows, e)[id];
      && r'.priority == r.priority && r'.createdAt == r.createdAt && r'.dependsOn == r.dependsOn
      && r'.backend == r.backend && r'.estSeconds == r.estSeconds
      && (!ClaimsRun(e, id) && !RequeuesRun(e, id) ==> r'.claimedBy == r.claimedBy && r'.claimedAt == r.claimedAt)
      && (!GrantsLease(e, id) && !RequeuesRun(e, id) ==> r'.leaseExpiresAt == r.leaseExpiresAt)
      && (!RequeuesRun(e, id) ==> r'.claimAttempts == r.claimAttempts)
  {
  }

  /** What a run shows of its latest claim. Between a claim and any requeue the holder
      and the time of the claim stay as the claim set them. */
  lemma {:induction false} HolderIsLastClaim(log: seq<Event>, i: nat, j: nat, id: RunId, maxAttempts: int, rule: PatchRule)
    requires Serial(log, maxAttempts, rule) && i < j <= |log| && ClaimsRun(log[i], id)
    requires forall k | i < k < j :: !ClaimsRun(log[k], id) && !RequeuesRun(log[k], id)
    ensures id in Before(log, j, maxAttempts, rule)
    ensures Before(log, j, maxAttempts, rule)[id].claimedBy == Some(log[i].worker)
    ensures Before(log, j, maxAttempts, rule)[id].claimedAt == Some(log[i].now)
    decreases j
  {
    StepAt(log, j - 1, maxAttempts, rule);
    if j - 1 > i {
      HolderIsLastClaim(log, i, j - 1, id, maxAttempts, rule);
      ColumnsKept(Before(log, j - 1, maxAttempts, rule), log[j - 1], maxAttempts, id);
    }
  }

  predicate Terminal(s: Status) { Worked(s) || s.Lost? || s.Cancelled? }

  /** When no PATCH changes how a run has ended, a finished, lost or cancelled row is
      never changed again. */
  lemma {:induction false} TerminalIsStable(rows: Table, e: Event, maxAttempts: int, rule: PatchRule, id: RunId)
    requires Allowed(rows, e, maxAttempts, rule) && KeepsEnded(rule)
    requires id in rows && Terminal(rows[id].status)
    ensures Apply(rows, e)[id] == rows[id]
  {
  }

  lemma {:induction false} CompletedIsStable(rows: Table, e: Event, maxAttempts: int, rule: PatchRule, id: RunId)
    requires Allowed(rows, e, maxAttempts, rule) && KeepsCompleted(rule)
    requires id in rows && rows[id].status.Completed?
    ensures Apply(rows, e)[id].status.Completed?
  {
  }

  // ----- Histories of one run -----

  predicate ClaimsRun(e: Event, id: RunId) { e.ClaimedRuns? && id in e.ids }

  predicate RequeuesRun(e: Event, id: RunId) { e.Swept? && id in e.requeued }

  predicate SweepsRun(e: Event, id: RunId) { e.Swept? && (id in e.requeued || id in e.lost) }

  predicate GrantsLease(e: Event, id: RunId) { ClaimsRun(e, id) || (e.Renewed? && e.id == id) }

  predicate EndsRun(e: Event, id: RunId) {
    || ((e.Finished? || e.CancelledRun?) && e.id == id)
    || (e.Patched? && e.id == id && e.patch.Some? && !Leasable(e.patch.value))
  }

  function Deadline(e: Event): int
    requires e.ClaimedRuns? || e.Renewed?
  {
    e.now + e.lease
  }

  /** A sweep requeue, or a PATCH that writes queued. */
  predicate PutsBack(e: Event, id: RunId) {
    RequeuesRun(e, id) || (e.Patched? && e.id == id && e.patch == Some(Queued))
  }

  /** Once claimed, a run stays out of the queue until something puts it back. */
  lemma {:induction false} HeldSinceClaim(log: seq<Event>, i: nat, j: nat, id: RunId, maxAttempts: int, rule: PatchRule)
    requires Serial(log, maxAttempts, rule) && i < j <= |log|
    requires ClaimsRun(log[i], id)
    requires forall k | i < k < j :: !RequeuesRun(log[k], id) && (NeverQueues(rule) || !PutsBack(log[k], id))
    ensures id in Before(log, j, maxAttempts, rule)
    ensures !Before(log, j, maxAttempts, rule)[id].status.Queued?
    decreases j
  {
    StepAt(log, j - 1, maxAttempts, rule);
    if j - 1 > i {
      HeldSinceClaim(log, i, j - 1, id, maxAttempts, rule);
      assert !RequeuesRun(log[j - 1], id);
    }
  }

  /** Whatever PATCHes are made, a run is never returned by two claims unless a
      sweep requeue of it, or a PATCH of it to queued, lies between. */
  lemma {:induction false} ClaimsAreSeparatedDespitePatches(log: seq<Event>, i: nat, j: nat, id: RunId, maxAttempts: int, rule: PatchRule)
    requires Serial(log, maxAttempts, rule) && i < j < |log|
    requires ClaimsRun(log[i], id) && ClaimsRun(log[j], id)
    ensures exists k :: i < k < j && PutsBack(log[k], id)
  {
    if forall k | i < k < j :: !PutsBack(log[k], id) {
      HeldSinceClaim(log, i, j, id, maxAttempts, rule);
      StepAt(log, j, maxAttempts, rule);
    }
  }

  /** When no PATCH puts a run back into the queue, a run is never returned by two
      claims unless a sweep requeue of it lies between. */
  lemma {:induction false} ClaimsAreSeparated(log: seq<Event>, i: nat, j: nat, id: RunId, maxAttempts: int, rule: PatchRule)
    requires Serial(log, maxAttempts, rule) && NeverQueues(rule) && i < j < |log|
    requires ClaimsRun(log[i], id) && ClaimsRun(log[j], id)
    ensures exists k :: i < k < j && RequeuesRun(log[k], id)
  {
    if forall k | i < k < j :: !RequeuesRun(log[k], id) {
      HeldSinceClaim(log, i, j, id, maxAttempts, rule);
      StepAt(log, j, maxAttempts, rule);
    }
  }

  lemma {:induction false} IdleSinceSweep(log: seq<Event>, i: nat, j: nat, id: RunId, maxAttempts: int, rule: PatchRule)
    requires Serial(log, maxAttempts, rule) && NeverRevives(rule) && i < j <= |log|
    requires SweepsRun(log[i], id)
    requires forall k | i < k < j :: !ClaimsRun(log[k], id)
    ensures id in Before(log, j, maxAttempts, rule)
    ensures !Leasable(Before(log, j, maxAttempts, rule)[id].status)
    decreases j
  {
    StepAt(log, j - 1, maxAttempts, rule);
    if j - 1 > i {
      IdleSinceSweep(log, i, j - 1, id, maxAttempts, rule);
      assert !ClaimsRun(log[j - 1], id);
    }
  }

  /** Concurrent sweeps never count one expiry twice: when no PATCH makes a run claimed
      or running again, two sweeps that both take a run have a claim of it between
      them, and no sweep both requeues and loses it. */
  lemma {:induction false} SweepsAreSeparated(log: seq<Event>, i: nat, j: nat, id: RunId, maxAttempts: int, rule: PatchRule)
    requires Serial(log, maxAttempts, rule) && NeverRevives(rule) && i < j < |log|
    requires SweepsRun(log[i], id) && SweepsRun(log[j], id)
    ensures exists k :: i < k < j && ClaimsRun(log[k], id)
    ensures !(id in log[j].requeued && id in log[j].lost)
  {
    StepAt(log, j, maxAttempts, rule);
    if forall k | i < k < j :: !ClaimsRun(log[k], id) {
      IdleSinceSweep(log, i, j, id, maxAttempts, rule);
    }
  }

  // ----- Dependencies -----

  /** `id` was inserted with status queued somewhere in the log. */
  predicate EnqueuedQueued(log: seq<Event>, id: RunId) {
    exists p :: 0 <= p < |log| && log[p].Enqueued? && log[p].id == id && log[p].run.status.Queued?
  }

  predicate ClaimedIn(log: seq<Event>, id: RunId) {
    exists p :: 0 <= p < |log| && ClaimsRun(log[p], id)
  }

  lemma {:induction false} ClaimedInSplit(log: seq<Event>, id: RunId)
    requires log != []
    ensures ClaimedIn(log, id) <==> ClaimedIn(log[..|log| - 1], id) || ClaimsRun(log[|log| - 1], id)
  {
    var init := log[..|log| - 1];
    if ClaimedIn(init, id) {
      var p :| 0 <= p < |init| && ClaimsRun(init[p], id);
      assert ClaimsRun(log[p], id);
    }
    if ClaimedIn(log, id) {
      var p :| 0 <= p < |log| && ClaimsRun(log[p], id);
      assert p < |init| ==> ClaimsRun(init[p], id);
    }
  }

  /** When only claims move runs on, a run enqueued as queued and not yet claimed is
      still queued, or cancelled. */
  lemma {:induction false} UnclaimedStaysQueued(log: seq<Event>, id: RunId, maxAttempts: int, rule: PatchRule)
    requires Serial(log, maxAttempts, rule) && KeepsWaiting(rule)
    requires EnqueuedQueued(log, id) && !ClaimedIn(log, id)
    ensures var rows := Replay(log, maxAttempts, rule).value;
      id in rows && Waiting(rows[id].status)
    decreases |log|
  {
    var n := |log| - 1;
    var p :| 0 <= p < |log| && log[p].Enqueued? && log[p].id == id && log[p].run.status.Queued?;
    StepAt(log, n, maxAttempts, rule);
    assert log[..n + 1] == log;
    assert !ClaimsRun(log[n], id);
    if p < n {
      assert log[..n][p] == log[p];
      assert EnqueuedQueued(log[..n], id);
      ClaimedInSplit(log, id);
      PrefixSerial(log, n, maxAttempts, rule);
      UnclaimedStaysQueued(log[..n], id, maxAttempts, rule);
    }
  }

  /** The order of first claims extends the dependency order. When no PATCH undoes a
      completion, each dependency of a claimed run exists and has completed; when
      besides only claims move runs on, one enqueued as queued was claimed earlier. */
  lemma {:induction false} ClaimOrderExtendsDependencies(log: seq<Event>, j: nat, id: RunId, dep: RunId, maxAttempts: int, rule: PatchRule)
    requires Serial(log, maxAttempts, rule) && j < |log| && ClaimsRun(log[j], id)
    requires id in Before(log, j, maxAttempts, rule) && dep in Before(log, j, maxAttempts, rule)[id].dependsOn
    requires KeepsCompleted(rule)
    ensures dep in Before(log, j, maxAttempts, rule)
    ensures Before(log, j, maxAttempts, rule)[dep].status.Completed?
    ensures KeepsWaiting(rule) && EnqueuedQueued(log, dep) ==> exists i :: 0 <= i < j && ClaimsRun(log[i], dep)
  {
    StepAt(log, j, maxAttempts, rule);
    if KeepsWaiting(rule) && EnqueuedQueued(log, dep) {
      PrefixSerial(log, j, maxAttempts, rule);
      EnqueueComesBefore(log, j, dep, maxAttempts, rule);
      if !ClaimedIn(log[..j], dep) {
        UnclaimedStaysQueued(log[..j], dep, maxAttempts, rule);
      }
      var i :| 0 <= i < j && ClaimsRun(log[..j][i], dep);
      assert ClaimsRun(log[i], dep);
    }
  }

  /** Ids are inserted once, so a row present at `j` was enqueued before `j`. */
  lemma {:induction false} EnqueueComesBefore(log: seq<Event>, j: nat, id: RunId, maxAttempts: int, rule: PatchRule)
    requires Serial(log, maxAttempts, rule) && j <= |log|
    requires id in Before(log, j, maxAttempts, rule) && EnqueuedQueued(log, id)
    ensures EnqueuedQueued(log[..j], id)
  {
    var p :| 0 <= p < |log| && log[p].Enqueued? && log[p].id == id && log[p].run.status.Queued?;
    if p >= j {
      StepAt(log, p, maxAttempts, rule);
      RowsPersist(log, j, p, id, maxAttempts, rule);
      assert false;
    } else {
      assert log[..j][p] == log[p];
    }
  }

  lemma {:induction false} RowsPersist(log: seq<Event>, i: nat, j: nat, id: RunId, maxAttempts: int, rule: PatchRule)
    requires Serial(log, maxAttempts, rule) && i <= j <= |log|
    requires id in Before(log, i, maxAttempts, rule)
    ensures id in Before(log, j, maxAttempts, rule)
    ensures Before(log, j, maxAttempts, rule)[id].dependsOn == Before(log, i, maxAttempts, rule)[id].dependsOn
    ensures KeepsCompleted(rule) && Before(log, i, maxAttempts, rule)[id].status.Completed?
            ==> Before(log, j, maxAttempts, rule)[id].status.Completed?
    decreases j
  {
    if i < j {
      RowsPersist(log, i, j - 1, id, maxAttempts, rule);
      StepAt(log, j - 1, maxAttempts, rule);
      var rows := Before(log, j - 1, maxAttempts, rule);
      ApplyFrame(rows, log[j - 1], maxAttempts);
      if KeepsCompleted(rule) && rows[id].status.Completed? { CompletedIsStable(rows, log[j - 1], maxAttempts, rule, id); }
    }
  }

  /** The dependencies met at a claim stay completed for the rest of the log. */
  lemma {:induction false} DependenciesStayCompleted(log: seq<Event>, j: nat, id: RunId, dep: RunId, maxAttempts: int, rule: PatchRule)
    requires Serial(log, maxAttempts, rule) && KeepsCompleted(rule) && j < |log| && ClaimsRun(log[j], id)
    requires id in Before(log, j, maxAttempts, rule) && dep in Before(log, j, maxAttempts, rule)[id].dependsOn
    ensures forall k | j <= k <= |log| ::
              dep in Before(log, k, maxAttempts, rule) && Before(log, k, maxAttempts, rule)[dep].status.Completed?
  {
    StepAt(log, j, maxAttempts, rule);
    forall k | j <= k <= |log|
      ensures dep in Before(log, k, maxAttempts, rule) && Before(log, k, maxAttempts, rule)[dep].status.Completed?
    {
      RowsPersist(log, j, k, dep, maxAttempts, rule);
    }
  }

  /** A set of runs each waiting on another of the set (a cycle, a self-loop). */
  predicate Knotted(log: seq<Event>, knot: set<RunId>) {
    forall p | 0 <= p < |log| && log[p].Enqueued? && log[p].id in knot ::
      log[p].run.status.Queued? && exists d :: d in log[p].run.dependsOn && d in knot
  }

  lemma {:induction false} KnottedStaysQueued(log: seq<Event>, knot: set<RunId>, id: RunId, maxAttempts: int, rule: PatchRule)
    requires Serial(log, maxAttempts, rule) && KeepsCompleted(rule) && KeepsWaiting(rule) && Knotted(log, knot) && id in knot
    requires id in Replay(log, maxAttempts, rule).value
    ensures var r := Replay(log, maxAttempts, rule).value[id];
      && Waiting(r.status)
      && exists d :: d in r.dependsOn && d in knot
    decreases |log|
  {
    var n := |log| - 1;
    StepAt(log, n, maxAttempts, rule);
    assert log[..n + 1] == log;
    var rows := Before(log, n, maxAttempts, rule);
    var e := log[n];
    ApplyFrame(rows, e, maxAttempts);
    KnottedPrefix(log, knot);
    if id in rows {
      KnottedStaysQueued(log[..n], knot, id, maxAttempts, rule);
      if ClaimsRun(e, id) {
        var d :| d in rows[id].dependsOn && d in knot;
        assert DepsMet(rows[id].dependsOn, rows);
        KnottedStaysQueued(log[..n], knot, d, maxAttempts, rule);
        assert false;
      }
    }
  }

  lemma {:induction false} KnottedPrefix(log: seq<Event>, knot: set<RunId>)
    requires Knotted(log, knot) && log != []
    ensures Knotted(log[..|log| - 1], knot)
  {
    var init := log[..|log| - 1];
    forall p | 0 <= p < |init| && init[p].Enqueued? && init[p].id in knot
      ensures init[p].run.status.Queued? && exists d :: d in init[p].run.dependsOn && d in knot
    {
      assert init[p] == log[p];
    }
  }

  /** When no PATCH undoes a completion and only claims move runs on, no run of a
      dependency cycle enqueued as queued is ever claimed. */
  lemma {:induction false} CyclesAreNeverClaimed(log: seq<Event>, knot: set<RunId>, maxAttempts: int, rule: PatchRule)
    requires Serial(log, maxAttempts, rule) && KeepsCompleted(rule) && KeepsWaiting(rule) && Knotted(log, knot)
    ensures forall id | id in knot :: !ClaimedIn(log, id)
    decreases |log|
  {
    if log != [] {
      var n := |log| - 1;
      KnottedPrefix(log, knot);
      PrefixSerial(log, n, maxAttempts, rule);
      CyclesAreNeverClaimed(log[..n], knot, maxAttempts, rule);
      StepAt(log, n, maxAttempts, rule);
      var rows := Before(log, n, maxAttempts, rule);
      forall id | id in knot ensures !ClaimedIn(log, id) {
        ClaimedInSplit(log, id);
        if ClaimsRun(log[n], id) {
          KnottedStaysQueued(log[..n], knot, id, maxAttempts, rule);
          var d :| d in rows[id].dependsOn && d in knot;
          assert DepsMet(rows[id].dependsOn, rows);
          KnottedStaysQueued(log[..n], knot, d, maxAttempts, rule);
          assert false;
        }
      }
    }
  }

  // ----- Attempts -----

  function RequeueCount(log: seq<Event>, id: RunId): nat {
    if log == [] then 0
    else RequeueCount(log[..|log| - 1], id) + if RequeuesRun(log[|log| - 1], id) then 1 else 0
  }

  function ClaimCount(log: seq<Event>, id: RunId): nat {
    if log == [] then 0
    else ClaimCount(log[..|log| - 1], id) + if ClaimsRun(log[|log| - 1], id) then 1 else 0
  }

  /** claim_attempts counts the sweep requeues of the run, whatever PATCHes come
      between, and never reaches max_attempts. */
  lemma {:induction false} AttemptsCountRequeues(log: seq<Event>, id: RunId, maxAttempts: int, rule: PatchRule)
    requires maxAttempts >= 1 && Serial(log, maxAttempts, rule)
    ensures var rows := Replay(log, maxAttempts, rule).value;
      if id in rows then rows[id].claimAttempts == RequeueCount(log, id) <= maxAttempts - 1
      else RequeueCount(log, id) == 0
    decreases |log|
  {
    if log != [] {
      var n := |log| - 1;
      PrefixSerial(log, n, maxAttempts, rule);
      AttemptsCountRequeues(log[..n], id, maxAttempts, rule);
      ApplyFrame(Replay(log[..n], maxAttempts, rule).value, log[n], maxAttempts);
    }
  }

  /** claim_attempts never decreases, even across arbitrary PATCHes. */
  lemma {:induction false} AttemptsNeverDecrease(log: seq<Event>, i: nat, j: nat, id: RunId, maxAttempts: int, rule: PatchRule)
    requires Serial(log, maxAttempts, rule) && i <= j <= |log|
    requires id in Before(log, i, maxAttempts, rule)
    ensures id in Before(log, j, maxAttempts, rule)
    ensures Before(log, i, maxAttempts, rule)[id].claimAttempts <= Before(log, j, maxAttempts, rule)[id].claimAttempts
    decreases j
  {
    if i < j {
      AttemptsNeverDecrease(log, i, j - 1, id, maxAttempts, rule);
      StepAt(log, j - 1, maxAttempts, rule);
      AttemptsStep(Before(log, j - 1, maxAttempts, rule), log[j - 1], id, maxAttempts);
    }
  }

  lemma {:induction false} AttemptsStep(rows: Table, e: Event, id: RunId, maxAttempts: int)
    requires Legal(rows, e, maxAttempts) && id in rows
    ensures id in Apply(rows, e)
    ensures Apply(rows, e)[id].claimAttempts == rows[id].claimAttempts + if RequeuesRun(e, id) then 1 else 0
  {
  }

  /** When no PATCH puts a run back into the queue, a run is claimed at most once more
      than it has been requeued, and no more often while it is queued. */
  lemma {:induction false} ClaimsBalanceRequeues(log: seq<Event>, id: RunId, maxAttempts: int, rule: PatchRule)
    requires Serial(log, maxAttempts, rule) && NeverQueues(rule)
    ensures var rows := Replay(log, maxAttempts, rule).value;
      && (id in rows && rows[id].status.Queued? ==> ClaimCount(log, id) <= RequeueCount(log, id))
      && (id in rows ==> ClaimCount(log, id) <= RequeueCount(log, id) + 1)
      && (id !in rows ==> ClaimCount(log, id) == RequeueCount(log, id) == 0)
    decreases |log|
  {
    if log != [] {
      var n := |log| - 1;
      PrefixSerial(log, n, maxAttempts, rule);
      ClaimsBalanceRequeues(log[..n], id, maxAttempts, rule);
      ApplyFrame(Replay(log[..n], maxAttempts, rule).value, log[n], maxAttempts);
    }
  }

  /** When no PATCH puts a run back into the queue, a run is claimed at most
      max_attempts times. */
  lemma {:induction false} ClaimedAtMostMaxAttempts(log: seq<Event>, id: RunId, maxAttempts: int, rule: PatchRule)
    requires maxAttempts >= 1 && Serial(log, maxAttempts, rule) && NeverQueues(rule)
    ensures ClaimCount(log, id) <= maxAttempts
  {
    ClaimsBalanceRequeues(log, id, maxAttempts, rule);
    AttemptsCountRequeues(log, id, maxAttempts, rule);
  }

  function Rank(s: Status): nat {
    match s
    case Queued => 3
    case Claimed => 2
    case Running => 1
    case _ => 0
  }

  /** The lexicographic measure (attempts left, status rank) packed in one number. */
  function Measure(r: Run, maxAttempts: int): int {
    4 * (maxAttempts - r.claimAttempts) + Rank(r.status)
  }

  /** Every event of this run except its insertion, repeat heartbeats, and PATCHes that
      leave the rank of its status as it was. */
  predicate Progresses(rows: Table, e: Event, id: RunId) {
    && id in rows && id in Touched(e) && !(e.Renewed? && rows[id].status.Running?)
    && !(e.Patched? && Rank(PatchRow(rows[id], e.patch).status) == Rank(rows[id].status))
  }

  ghost function ProgressCount(log: seq<Event>, id: RunId, maxAttempts: int, rule: PatchRule): nat
    requires Serial(log, maxAttempts, rule)
  {
    if log == [] then 0 else
      var n := |log| - 1;
      PrefixSerial(log, n, maxAttempts, rule);
      ProgressCount(log[..n], id, maxAttempts, rule)
      + if Progresses(Replay(log[..n], maxAttempts, rule).value, log[n], id) then 1 else 0
  }

  /** When no PATCH takes a run back, each progress event lowers the measure; all other
      events leave it alone. */
  lemma {:induction false} MeasureFalls(rows: Table, e: Event, id: RunId, maxAttempts: int, rule: PatchRule)
    requires Allowed(rows, e, maxAttempts, rule) && NeverRaises(rule) && id in rows
    ensures if Progresses(rows, e, id)
            then Measure(Apply(rows, e)[id], maxAttempts) < Measure(rows[id], maxAttempts)
            else Measure(Apply(rows, e)[id], maxAttempts) == Measure(rows[id], maxAttempts)
  {
  }

  /** So only enqueues, repeat heartbeats and idle PATCHes can go on for ever: the
      progress events of a run number at most 4 * max_attempts + 3. */
  lemma {:induction false} ProgressIsBounded(log: seq<Event>, id: RunId, maxAttempts: int, rule: PatchRule)
    requires maxAttempts >= 1 && Serial(log, maxAttempts, rule) && NeverRaises(rule)
    ensures var rows := Replay(log, maxAttempts, rule).value;
      if id in rows
      then ProgressCount(log, id, maxAttempts, rule) + Measure(rows[id], maxAttempts) <= 4 * maxAttempts + 3
      else ProgressCount(log, id, maxAttempts, rule) == 0
    ensures ProgressCount(log, id, maxAttempts, rule) <= 4 * maxAttempts + 3
    decreases |log|
  {
    if log != [] {
      var n := |log| - 1;
      PrefixSerial(log, n, maxAttempts, rule);
      ProgressIsBounded(log[..n], id, maxAttempts, rule);
      var rows := Replay(log[..n], maxAttempts, rule).value;
      ApplyFrame(rows, log[n], maxAttempts);
      if id in rows { MeasureFalls(rows, log[n], id, maxAttempts, rule); }
      AttemptsCountRequeues(log, id, maxAttempts, rule);
    }
  }

  // ----- Leases -----

  /** When no PATCH puts a run back into the queue, a queued run carries no trace of an
      earlier claim. */
  lemma {:induction false} QueuedIsClean(log: seq<Event>, id: RunId, maxAttempts: int, rule: PatchRule)
    requires Serial(log, maxAttempts, rule) && NeverQueues(rule)
    requires id in Replay(log, maxAttempts, rule).value
    requires Replay(log, maxAttempts, rule).value[id].status.Queued?
    ensures var r := Replay(log, maxAttempts, rule).value[id];
      r.claimedBy.None? && r.claimedAt.None? && r.leaseExpiresAt.None?
    decreases |log|
  {
    if log != [] {
      var n := |log| - 1;
      PrefixSerial(log, n, maxAttempts, rule);
      var rows := Replay(log[..n], maxAttempts, rule).value;
      ApplyFrame(rows, log[n], maxAttempts);
      if id in rows && rows[id].status.Queued? { QueuedIsClean(log[..n], id, maxAttempts, rule); }
    }
  }

  /** Commit times never go back. */
  predicate InOrder(log: seq<Event>) {
    forall i, j | 0 <= i <= j < |log| :: log[i].at <= log[j].at
  }

  /** A lease held after an event is the one the event granted, or was held before it. */
  lemma {:induction false} LeaseStep(rows: Table, e: Event, id: RunId, maxAttempts: int, rule: PatchRule)
    requires Allowed(rows, e, maxAttempts, rule) && NeverRevives(rule) && id in Apply(rows, e)
    requires var r := Apply(rows, e)[id]; Leasable(r.status) && r.leaseExpiresAt.Some?
    ensures if GrantsLease(e, id) then Apply(rows, e)[id].leaseExpiresAt.value == Deadline(e)
            else id in rows && Leasable(rows[id].status) && rows[id].leaseExpiresAt == Apply(rows, e)[id].leaseExpiresAt
                 && !EndsRun(e, id)
  {
  }

  /** When no PATCH makes a run claimed or running again, a leasable run with a lease
      got it from its most recent grant, and nothing has ended the run since. */
  lemma {:induction false} LeaseComesFromLastGrant(log: seq<Event>, k: nat, id: RunId, maxAttempts: int, rule: PatchRule) returns (p: nat)
    requires Serial(log, maxAttempts, rule) && NeverRevives(rule) && k <= |log|
    requires id in Before(log, k, maxAttempts, rule)
    requires var r := Before(log, k, maxAttempts, rule)[id]; Leasable(r.status) && r.leaseExpiresAt.Some?
    ensures p < k && GrantsLease(log[p], id)
    ensures Before(log, k, maxAttempts, rule)[id].leaseExpiresAt.value == Deadline(log[p])
    ensures forall q | p < q < k :: !GrantsLease(log[q], id) && !EndsRun(log[q], id)
    decreases k
  {
    var n := k - 1;
    StepAt(log, n, maxAttempts, rule);
    var rows := Before(log, n, maxAttempts, rule);
    LeaseStep(rows, log[n], id, maxAttempts, rule);
    if GrantsLease(log[n], id) {
      p := n;
    } else {
      p := LeaseComesFromLastGrant(log, n, id, maxAttempts, rule);
    }
  }

  /** The holder of every lease granted on `id` acts in time: it renews, or the
      run ends, at or before the deadline, unless the log stops before it. */
  predicate KeepsLease(log: seq<Event>, id: RunId) {
    forall p | 0 <= p < |log| && GrantsLease(log[p], id) ::
      || log[|log| - 1].at <= Deadline(log[p])
      || exists q :: p < q < |log| && (GrantsLease(log[q], id) || EndsRun(log[q], id)) && log[q].at <= Deadline(log[p])
  }

  /** A sweep that takes a run shows a grant whose holder did not act in time. */
  lemma {:induction false} SweptLeaseWasNotKept(log: seq<Event>, k: nat, id: RunId, maxAttempts: int, rule: PatchRule)
    requires Serial(log, maxAttempts, rule) && NeverRevives(rule) && InOrder(log)
    requires k < |log| && SweepsRun(log[k], id)
    ensures !KeepsLease(log, id)
  {
    StepAt(log, k, maxAttempts, rule);
    var p := LeaseComesFromLastGrant(log, k, id, maxAttempts, rule);
    assert Deadline(log[p]) < log[k].now <= log[k].at <= log[|log| - 1].at;
    forall q | p < q < |log| && (GrantsLease(log[q], id) || EndsRun(log[q], id))
      ensures log[q].at > Deadline(log[p])
    {
      assert q >= k;
      assert log[k].at <= log[q].at;
    }
  }

  /** Timed lease safety: a run whose lease is kept is never requeued or lost by
      any interleaved sweep. */
  lemma {:induction false} KeptLeaseIsNeverSwept(log: seq<Event>, id: RunId, maxAttempts: int, rule: PatchRule)
    requires Serial(log, maxAttempts, rule) && NeverRevives(rule) && InOrder(log) && KeepsLease(log, id)
    ensures forall k | 0 <= k < |log| :: !SweepsRun(log[k], id)
  {
    forall k | 0 <= k < |log| ensures !SweepsRun(log[k], id) {
      if SweepsRun(log[k], id) { SweptLeaseWasNotKept(log, k, id, maxAttempts, rule); }
    }
  }
}
