/** The run queue under concurrency. */
module RunProtocol {
  // Claim and sweep transactions interleave statement by statement and row by row under
  // READ COMMITTED row locks, with single-row updates in between (service/runs.py). Every
  // interleaving is shown to be equivalent to replaying its commit log (RunEvents).

  import opened Common
  import opened RunRows
  import opened Packing
  import opened RunEvents

  type TxId = nat

  datatype Phase = Started | Locking | Written

  /** An open transaction. `now` is fixed at its start, `locked` are the row locks
      it holds and `writes` its uncommitted row versions. */
  datatype Tx =
    | Claiming(now: int, backend: string, session: int, worker: string, lease: int,
               phase: Phase, snapshot: Table, todo: seq<RunId>, candidates: seq<RunId>,
               locked: set<RunId>, writes: Table)
    | Sweeping(now: int, secondStatement: bool, locked: set<RunId>, writes: Table)

  /** `rows` is the committed table; `log` lists the commits so far. */
  datatype State = State(rows: Table, txs: map<TxId, Tx>, clock: int, log: seq<Event>, maxAttempts: int)

  /** One step of some client. `now` in Renew is the start time of that
      one-statement transaction, which may have waited for a row lock since. SkipNext
      is a claim passing over a row that is locked for a moment by such a statement,
      or by the foreign-key check of an INSERT. */
  datatype Label =
    | Tick(clock: int)
    | Enqueue(id: RunId, run: Run)
    | Renew(id: RunId, now: int, lease: int)
    | Finish(id: RunId, outcome: Status)
    | Cancel(id: RunId)
    | Patch(id: RunId, patch: Option<Status>)
    | BeginClaim(t: TxId, backend: string, session: int, worker: string, lease: int)
    | Scan(t: TxId)
    | LockNext(t: TxId)
    | SkipNext(t: TxId)
    | WriteClaims(t: TxId)
    | BeginSweep(t: TxId)
    | SweepRow(t: TxId, id: RunId)
    | NextStatement(t: TxId)
    | Commit(t: TxId)
    | Abort(t: TxId)

  function Init(maxAttempts: int): State {
    State(map[], map[], 0, [], maxAttempts)
  }

  predicate LockedByOther(s: State, t: TxId, id: RunId) {
    exists u :: u in s.txs && u != t && id in s.txs[u].locked
  }

  predicate Unlocked(s: State, id: RunId) {
    forall u | u in s.txs :: id !in s.txs[u].locked
  }

  /** What transaction `t` sees in row `id`: its own version, else the committed one. */
  function View(s: State, tx: Tx, id: RunId): Run
    requires id in s.rows
  {
    if id in tx.writes then tx.writes[id] else s.rows[id]
  }

  /** The ids a claim for `backend` would consider. */
  function ReadyIds(rows: Table, backend: string): set<RunId> {
    set id | id in rows && Ready(rows[id], rows) && BackendOk(rows[id], backend)
  }

  function Costed(rows: Table, ids: seq<RunId>): seq<Candidate>
    requires forall id | id in ids :: id in rows
  {
    seq(|ids|, i requires 0 <= i < |ids| => Candidate(ids[i], rows[ids[i]].estSeconds))
  }

  /** The event a one-statement step commits at once. */
  function Immediate(s: State, l: Label): Option<Event> {
    match l
    case Enqueue(id, run) => Some(Enqueued(s.clock, id, run))
    case Renew(id, now, lease) => Some(Renewed(s.clock, id, now, lease))
    case Finish(id, outcome) => Some(Finished(s.clock, id, outcome))
    case Cancel(id) => Some(CancelledRun(s.clock, id))
    case Patch(id, patch) => Some(Patched(s.clock, id, patch))
    case _ => None
  }

  function WithStatus(rows: Table, status: Status): set<RunId> {
    set id | id in rows && rows[id].status == status
  }

  /** The event a transaction's commit amounts to. */
  function CommitEvent(s: State, tx: Tx): Event {
    match tx
    case Claiming(now, backend, session, worker, lease, _, _, _, _, _, writes) =>
      ClaimedRuns(s.clock, writes.Keys, backend, session, worker, now, lease)
    case Sweeping(now, _, _, writes) =>
      Swept(s.clock, WithStatus(writes, Queued), WithStatus(writes, Lost), now)
  }

  predicate Enabled(s: State, l: Label) {
    match l
    case Tick(clock) => s.clock <= clock
    case Enqueue(id, run) => id !in s.rows && FreshRow(run)
    case Renew(id, now, _) => now <= s.clock && Unlocked(s, id) && id in s.rows && Leasable(s.rows[id].status)
    case Finish(id, outcome) => Unlocked(s, id) && id in s.rows && Leasable(s.rows[id].status) && Worked(outcome)
    case Cancel(id) => Unlocked(s, id) && id in s.rows && Cancellable(s.rows[id].status)
    case Patch(id, _) => Unlocked(s, id) && id in s.rows
    case BeginClaim(t, _, _, _, _) => t !in s.txs
    case Scan(t) => t in s.txs && s.txs[t].Claiming? && s.txs[t].phase.Started?
    case LockNext(t) => t in s.txs && s.txs[t].Claiming? && s.txs[t].phase.Locking? && s.txs[t].todo != []
                        && s.txs[t].todo[0] in s.rows
    case SkipNext(t) => t in s.txs && s.txs[t].Claiming? && s.txs[t].phase.Locking? && s.txs[t].todo != []
    case WriteClaims(t) => t in s.txs && s.txs[t].Claiming? && s.txs[t].phase.Locking? && s.txs[t].todo == []
                           && forall id | id in s.txs[t].candidates :: id in s.rows
    case BeginSweep(t) => t !in s.txs
    case SweepRow(t, id) => t in s.txs && s.txs[t].Sweeping? && id in s.rows && !LockedByOther(s, t, id)
    case NextStatement(t) => t in s.txs && s.txs[t].Sweeping? && !s.txs[t].secondStatement
    case Commit(t) => t in s.txs && (if s.txs[t].Claiming? then s.txs[t].phase.Written? else s.txs[t].secondStatement)
    case Abort(t) => t in s.txs
  }

  /** FOR UPDATE SKIP LOCKED on the next row of the ordered scan: a row some other
      transaction holds is skipped; a row it gets is locked and rechecked in its
      newest version, its dependencies still read from the statement's snapshot. */
  function LockStep(s: State, t: TxId): Tx
    requires Enabled(s, LockNext(t))
  {
    var tx := s.txs[t];
    var id := tx.todo[0];
    var rest := tx.(todo := tx.todo[1..]);
    if LockedByOther(s, t, id) then rest
    else if Ready(s.rows[id], tx.snapshot) && BackendOk(s.rows[id], tx.backend)
      then rest.(locked := tx.locked + {id}, candidates := tx.candidates + [id])
    else rest.(locked := tx.locked + {id})
  }

  /** The final UPDATE: the packed candidates, with no recheck of their status. */
  function WriteStep(s: State, t: TxId): Tx
    requires Enabled(s, WriteClaims(t))
  {
    var tx := s.txs[t];
    var chosen := Pack(Costed(s.rows, tx.candidates), tx.session);
    tx.(phase := Written,
        writes := map id | id in s.rows && id in chosen :: ClaimRow(s.rows[id], tx.worker, tx.now, tx.lease))
  }

  /** One row of a sweep UPDATE, evaluated on the newest version of the row. */
  function SweepStep(s: State, t: TxId, id: RunId): Tx
    requires Enabled(s, SweepRow(t, id))
  {
    var tx := s.txs[t];
    var r := View(s, tx, id);
    if !tx.secondStatement && Requeues(r, tx.now, s.maxAttempts)
      then tx.(locked := tx.locked + {id}, writes := tx.writes[id := RequeueRow(r)])
    else if tx.secondStatement && Loses(r, tx.now, s.maxAttempts)
      then tx.(locked := tx.locked + {id}, writes := tx.writes[id := LoseRow(r)])
    else tx
  }

  function Do(s: State, l: Label): State
    requires Enabled(s, l)
  {
    match l
    case Tick(clock) => s.(clock := clock)
    case BeginClaim(t, backend, session, worker, lease) =>
      s.(txs := s.txs[t := Claiming(s.clock, backend, session, worker, lease, Started, map[], [], [], {}, map[])])
    case Scan(t) =>
      var tx := s.txs[t];
      s.(txs := s.txs[t := tx.(phase := Locking, snapshot := s.rows,
                                todo := OrderBy(s.rows, ReadyIds(s.rows, tx.backend)))])
    case LockNext(t) => s.(txs := s.txs[t := LockStep(s, t)])
    case SkipNext(t) => s.(txs := s.txs[t := s.txs[t].(todo := s.txs[t].todo[1..])])
    case WriteClaims(t) => s.(txs := s.txs[t := WriteStep(s, t)])
    case BeginSweep(t) => s.(txs := s.txs[t := Sweeping(s.clock, false, {}, map[])])
    case SweepRow(t, id) => s.(txs := s.txs[t := SweepStep(s, t, id)])
    case NextStatement(t) => s.(txs := s.txs[t := s.txs[t].(secondStatement := true)])
    case Commit(t) =>
      var tx := s.txs[t];
      s.(rows := s.rows + tx.writes, txs := s.txs - {t}, log := s.log + [CommitEvent(s, tx)])
    case Abort(t) => s.(txs := s.txs - {t})
    case _ =>
      var e := Immediate(s, l).value;
      s.(rows := Apply(s.rows, e), log := s.log + [e])
  }

  /** The step is enabled, and a PATCH follows the rule. */
  predicate Takes(s: State, l: Label, rule: PatchRule) {
    Enabled(s, l) && (l.Patch? ==> rule(s.rows[l.id].status, l.patch))
  }

  /** Every label is taken in turn. */
  predicate Behaviour(s: State, labels: seq<Label>, rule: PatchRule)
    decreases |labels|
  {
    labels == [] || (
      && Takes(s, labels[0], rule)
      && Behaviour(Do(s, labels[0]), labels[1..], rule))
  }

  function Final(s: State, labels: seq<Label>, rule: PatchRule): State
    requires Behaviour(s, labels, rule)
    decreases |labels|
  {
    if labels == [] then s else Final(Do(s, labels[0]), labels[1..], rule)
  }

  // ----- The invariant -----

  predicate LocksDisjoint(s: State) {
    forall t, u | t in s.txs && u in s.txs && t != u :: s.txs[t].locked !! s.txs[u].locked
  }

  /** Facts that hold of one open transaction whatever the others do. */
  predicate TxOk(rows: Table, clock: int, maxAttempts: int, tx: Tx) {
    && tx.now <= clock
    && tx.writes.Keys <= tx.locked <= rows.Keys
    && match tx
       case Claiming(now, _, _, worker, lease, _, snapshot, todo, candidates, locked, writes) =>
         && snapshot.Keys <= rows.Keys
         && (forall id | id in todo :: id in rows)
         && (forall id | id in candidates :: id in locked && rows[id].status.Queued?)
         && (forall id | id in writes :: rows[id].status.Queued? && writes[id] == ClaimRow(rows[id], worker, now, lease))
       case Sweeping(now, _, locked, writes) =>
         forall id | id in writes ::
           || (Requeues(rows[id], now, maxAttempts) && writes[id] == RequeueRow(rows[id]))
           || (Loses(rows[id], now, maxAttempts) && writes[id] == LoseRow(rows[id]))
  }

  /** When no PATCH undoes a completion, a claim's snapshot can only be behind on them. */
  predicate TxReadyOk(rows: Table, tx: Tx) {
    tx.Claiming? ==>
      && (forall id | id in tx.snapshot && tx.snapshot[id].status.Completed? :: id in rows && rows[id].status.Completed?)
      && (forall id | id in tx.candidates :: id in rows && DepsMet(rows[id].dependsOn, rows))
      && (forall id | id in tx.writes :: id in rows && DepsMet(rows[id].dependsOn, rows))
  }

  ghost predicate Inv(s: State, rule: PatchRule) {
    && LocksDisjoint(s)
    && (forall t | t in s.txs :: TxOk(s.rows, s.clock, s.maxAttempts, s.txs[t]))
    && (KeepsCompleted(rule) ==> forall t | t in s.txs :: TxReadyOk(s.rows, s.txs[t]))
    && Replay(s.log, s.maxAttempts, rule) == Some(s.rows)
    && InOrder(s.log)
    && (s.log != [] ==> s.log[|s.log| - 1].at <= s.clock)
  }

  /** A commit leaves alone every transaction that holds none of the rows it touches. */
  lemma {:induction false} TxSurvives(rows: Table, e: Event, clock: int, maxAttempts: int, rule: PatchRule, tx: Tx)
    requires Allowed(rows, e, maxAttempts, rule)
    requires TxOk(rows, clock, maxAttempts, tx) && (KeepsCompleted(rule) ==> TxReadyOk(rows, tx))
    requires Touched(e) !! tx.locked
    ensures TxOk(Apply(rows, e), clock, maxAttempts, tx) && (KeepsCompleted(rule) ==> TxReadyOk(Apply(rows, e), tx))
  {
    var rows' := Apply(rows, e);
    ApplyFrame(rows, e, maxAttempts);
    if KeepsCompleted(rule) && tx.Claiming? {
      forall id | id in rows && rows[id].status.Completed? ensures rows'[id].status.Completed? {
        CompletedIsStable(rows, e, maxAttempts, rule, id);
      }
    }
  }

  lemma {:induction false} TxsSurvive(s: State, rows': Table, txs': map<TxId, Tx>, e: Event, rule: PatchRule)
    requires forall t | t in s.txs :: TxOk(s.rows, s.clock, s.maxAttempts, s.txs[t])
    requires KeepsCompleted(rule) ==> forall t | t in s.txs :: TxReadyOk(s.rows, s.txs[t])
    requires Allowed(s.rows, e, s.maxAttempts, rule) && rows' == Apply(s.rows, e)
    requires forall t | t in txs' :: t in s.txs && txs'[t] == s.txs[t] && Touched(e) !! s.txs[t].locked
    ensures forall t | t in txs' :: TxOk(rows', s.clock, s.maxAttempts, txs'[t])
    ensures KeepsCompleted(rule) ==> forall t | t in txs' :: TxReadyOk(rows', txs'[t])
  {
    forall t | t in txs'
      ensures TxOk(rows', s.clock, s.maxAttempts, txs'[t]) && (KeepsCompleted(rule) ==> TxReadyOk(rows', txs'[t]))
    {
      TxSurvives(s.rows, e, s.clock, s.maxAttempts, rule, s.txs[t]);
    }
  }

  /** A commit event takes the invariant along, given the lock discipline. */
  lemma {:induction false} EventKeepsInv(s: State, s': State, e: Event, rule: PatchRule)
    requires Inv(s, rule)
    requires Allowed(s.rows, e, s.maxAttempts, rule) && e.at == s.clock
    requires s'.rows == Apply(s.rows, e) && s'.log == s.log + [e]
    requires s'.clock == s.clock && s'.maxAttempts == s.maxAttempts
    requires s'.txs.Keys <= s.txs.Keys && forall t | t in s'.txs :: s'.txs[t] == s.txs[t] && Touched(e) !! s.txs[t].locked
    ensures Inv(s', rule)
  {
    ReplayAppend(s.log, e, s.maxAttempts, rule);
    TxsSurvive(s, s'.rows, s'.txs, e, rule);
  }

  /** The final UPDATE of a claim, run without rechecking any status, is the
      atomic claim of exactly those rows: the row locks carried the check. */
  lemma {:induction false} ClaimCommitIsAtomic(s: State, t: TxId, rule: PatchRule)
    requires Inv(s, rule) && t in s.txs && s.txs[t].Claiming?
    ensures var e := CommitEvent(s, s.txs[t]);
      Allowed(s.rows, e, s.maxAttempts, rule) && s.rows + s.txs[t].writes == Apply(s.rows, e)
  {
    var tx := s.txs[t];
    assert TxOk(s.rows, s.clock, s.maxAttempts, tx);
    assert KeepsCompleted(rule) ==> TxReadyOk(s.rows, tx);
  }

  /** Row versions written by sweep statements make up a legal sweep. */
  lemma {:induction false} SweepVersionsAreLegal(rows: Table, writes: Table, at: int, now: int, maxAttempts: int)
    requires writes.Keys <= rows.Keys && now <= at
    requires forall id | id in writes ::
      || (Requeues(rows[id], now, maxAttempts) && writes[id] == RequeueRow(rows[id]))
      || (Loses(rows[id], now, maxAttempts) && writes[id] == LoseRow(rows[id]))
    ensures var e := Swept(at, WithStatus(writes, Queued), WithStatus(writes, Lost), now);
      Legal(rows, e, maxAttempts) && rows + writes == Apply(rows, e)
  {
    var e := Swept(at, WithStatus(writes, Queued), WithStatus(writes, Lost), now);
    forall id | id in rows ensures (rows + writes)[id] == Apply(rows, e)[id] {
      assert id in writes <==> id in e.requeued || id in e.lost;
    }
  }

  /** The two UPDATEs of a sweep commit as one atomic split of rows whose lease had
      expired when the sweep began. */
  lemma {:induction false} SweepCommitIsAtomic(s: State, t: TxId, rule: PatchRule)
    requires Inv(s, rule) && t in s.txs && s.txs[t].Sweeping?
    ensures var e := CommitEvent(s, s.txs[t]);
      Allowed(s.rows, e, s.maxAttempts, rule) && s.rows + s.txs[t].writes == Apply(s.rows, e)
  {
    var tx := s.txs[t];
    assert TxOk(s.rows, s.clock, s.maxAttempts, tx);
    SweepVersionsAreLegal(s.rows, tx.writes, s.clock, tx.now, s.maxAttempts);
  }

  lemma {:induction false} CommitKeepsInv(s: State, t: TxId, rule: PatchRule)
    requires Inv(s, rule) && Enabled(s, Commit(t))
    ensures Inv(Do(s, Commit(t)), rule)
  {
    var tx := s.txs[t];
    if tx.Claiming? { ClaimCommitIsAtomic(s, t, rule); } else { SweepCommitIsAtomic(s, t, rule); }
    assert TxOk(s.rows, s.clock, s.maxAttempts, tx);
    EventKeepsInv(s, Do(s, Commit(t)), CommitEvent(s, tx), rule);
  }

  lemma {:induction false} ImmediateKeepsInv(s: State, l: Label, rule: PatchRule)
    requires Inv(s, rule) && Enabled(s, l) && Immediate(s, l).Some?
    requires Takes(s, l, rule)
    ensures Inv(Do(s, l), rule)
  {
    var e := Immediate(s, l).value;
    forall t | t in s.txs ensures Touched(e) !! s.txs[t].locked {
      assert TxOk(s.rows, s.clock, s.maxAttempts, s.txs[t]);
    }
    EventKeepsInv(s, Do(s, l), e, rule);
  }

  /** A step that only changes transaction `t` keeps the invariant when `t` itself
      stays well-formed and takes no lock held elsewhere. */
  lemma {:induction false} LocalKeepsInv(s: State, t: TxId, tx': Tx, rule: PatchRule)
    requires Inv(s, rule)
    requires TxOk(s.rows, s.clock, s.maxAttempts, tx') && (KeepsCompleted(rule) ==> TxReadyOk(s.rows, tx'))
    requires forall u | u in s.txs && u != t :: tx'.locked !! s.txs[u].locked
    ensures Inv(s.(txs := s.txs[t := tx']), rule)
  {
  }

  lemma {:induction false} ScanKeepsInv(s: State, t: TxId, rule: PatchRule)
    requires Inv(s, rule) && Enabled(s, Scan(t))
    ensures Inv(Do(s, Scan(t)), rule)
  {
    var tx := s.txs[t];
    assert TxOk(s.rows, s.clock, s.maxAttempts, tx) && (KeepsCompleted(rule) ==> TxReadyOk(s.rows, tx));
    var tx' := tx.(phase := Locking, snapshot := s.rows, todo := OrderBy(s.rows, ReadyIds(s.rows, tx.backend)));
    LocalKeepsInv(s, t, tx', rule);
  }

  /** The locked and rechecked row is queued in its newest version. */
  lemma {:induction false} LockKeepsTx(s: State, t: TxId)
    requires Enabled(s, LockNext(t)) && TxOk(s.rows, s.clock, s.maxAttempts, s.txs[t])
    ensures TxOk(s.rows, s.clock, s.maxAttempts, LockStep(s, t))
  {
    var tx, tx' := s.txs[t], LockStep(s, t);
    assert tx'.writes == tx.writes && tx.locked <= tx'.locked;
    forall id | id in tx'.todo ensures id in s.rows { assert id in tx.todo; }
  }

  /** When no PATCH undoes a completion, the snapshot's are still completions, so the
      dependencies rechecked against it are met now. */
  lemma {:induction false} LockKeepsReady(s: State, t: TxId)
    requires Enabled(s, LockNext(t)) && TxReadyOk(s.rows, s.txs[t])
    ensures TxReadyOk(s.rows, LockStep(s, t))
  {
    var tx, tx' := s.txs[t], LockStep(s, t);
    assert tx'.writes == tx.writes && tx'.snapshot == tx.snapshot;
    forall id | id in tx'.candidates ensures id in s.rows && DepsMet(s.rows[id].dependsOn, s.rows) {
      if id !in tx.candidates { assert DepsMet(s.rows[id].dependsOn, tx.snapshot); }
    }
  }

  lemma {:induction false} LockKeepsInv(s: State, t: TxId, rule: PatchRule)
    requires Inv(s, rule) && Enabled(s, LockNext(t))
    ensures Inv(Do(s, LockNext(t)), rule)
  {
    var tx' := LockStep(s, t);
    assert TxOk(s.rows, s.clock, s.maxAttempts, s.txs[t]);
    LockKeepsTx(s, t);
    if KeepsCompleted(rule) { LockKeepsReady(s, t); }
    var id := s.txs[t].todo[0];
    assert tx'.locked <= s.txs[t].locked + {id};
    forall u | u in s.txs && u != t ensures tx'.locked !! s.txs[u].locked {
      assert s.txs[t].locked !! s.txs[u].locked;
      assert id in tx'.locked ==> id in s.txs[t].locked || !LockedByOther(s, t, id);
    }
    LocalKeepsInv(s, t, tx', rule);
  }

  lemma {:induction false} SkipKeepsInv(s: State, t: TxId, rule: PatchRule)
    requires Inv(s, rule) && Enabled(s, SkipNext(t))
    ensures Inv(Do(s, SkipNext(t)), rule)
  {
    var tx := s.txs[t];
    assert TxOk(s.rows, s.clock, s.maxAttempts, tx) && (KeepsCompleted(rule) ==> TxReadyOk(s.rows, tx));
    LocalKeepsInv(s, t, tx.(todo := tx.todo[1..]), rule);
  }

  lemma {:induction false} WriteKeepsInv(s: State, t: TxId, rule: PatchRule)
    requires Inv(s, rule) && Enabled(s, WriteClaims(t))
    ensures Inv(Do(s, WriteClaims(t)), rule)
  {
    var tx := s.txs[t];
    assert TxOk(s.rows, s.clock, s.maxAttempts, tx) && (KeepsCompleted(rule) ==> TxReadyOk(s.rows, tx));
    var tx' := WriteStep(s, t);
    var cs := Costed(s.rows, tx.candidates);
    forall id | id in tx'.writes ensures id in tx.candidates {
      SelectIsSubset(cs, Mask(cs, tx.session, tx.session), id);
    }
    LocalKeepsInv(s, t, tx', rule);
  }

  lemma {:induction false} SweepRowKeepsInv(s: State, t: TxId, id: RunId, rule: PatchRule)
    requires Inv(s, rule) && Enabled(s, SweepRow(t, id))
    ensures Inv(Do(s, SweepRow(t, id)), rule)
  {
    var tx := s.txs[t];
    assert TxOk(s.rows, s.clock, s.maxAttempts, tx);
    LocalKeepsInv(s, t, SweepStep(s, t, id), rule);
  }

  lemma {:induction false} StepKeepsInv(s: State, l: Label, rule: PatchRule)
    requires Inv(s, rule) && Enabled(s, l)
    requires Takes(s, l, rule)
    ensures Inv(Do(s, l), rule)
  {
    match l
    case Tick(clock) =>
      forall t | t in s.txs ensures TxOk(s.rows, clock, s.maxAttempts, s.txs[t]) {
        assert TxOk(s.rows, s.clock, s.maxAttempts, s.txs[t]);
      }
    case BeginClaim(t, backend, session, worker, lease) =>
      LocalKeepsInv(s, t, Claiming(s.clock, backend, session, worker, lease, Started, map[], [], [], {}, map[]), rule);
    case Scan(t) => ScanKeepsInv(s, t, rule);
    case LockNext(t) => LockKeepsInv(s, t, rule);
    case SkipNext(t) => SkipKeepsInv(s, t, rule);
    case WriteClaims(t) => WriteKeepsInv(s, t, rule);
    case BeginSweep(t) => LocalKeepsInv(s, t, Sweeping(s.clock, false, {}, map[]), rule);
    case SweepRow(t, id) => SweepRowKeepsInv(s, t, id, rule);
    case NextStatement(t) =>
      assert TxOk(s.rows, s.clock, s.maxAttempts, s.txs[t]);
      LocalKeepsInv(s, t, s.txs[t].(secondStatement := true), rule);
    case Commit(t) => CommitKeepsInv(s, t, rule);
    case Abort(t) =>
    case _ => ImmediateKeepsInv(s, l, rule);
  }

  lemma {:induction false} BehaviourKeepsInv(s: State, labels: seq<Label>, rule: PatchRule)
    requires Inv(s, rule) && Behaviour(s, labels, rule)
    ensures Inv(Final(s, labels, rule), rule)
    ensures Final(s, labels, rule).maxAttempts == s.maxAttempts
    decreases |labels|
  {
    if labels != [] {
      StepKeepsInv(s, labels[0], rule);
      BehaviourKeepsInv(Do(s, labels[0]), labels[1..], rule);
    }
  }

  // ----- What holds of every interleaving -----

  /** Serializability: in every interleaving the committed table is the outcome of
      replaying the commit log one atomic event at a time; and when no PATCH undoes a
      completion, every claim of the log finds its dependencies met. */
  lemma {:induction false} EveryInterleavingIsSerial(labels: seq<Label>, maxAttempts: int, rule: PatchRule)
    requires Behaviour(Init(maxAttempts), labels, rule)
    ensures var s := Final(Init(maxAttempts), labels, rule);
      Replay(s.log, maxAttempts, rule) == Some(s.rows) && InOrder(s.log)
  {
    BehaviourKeepsInv(Init(maxAttempts), labels, rule);
  }

  /** Between two claims of a run some sweep requeued it. */
  ghost predicate Exclusive(log: seq<Event>) {
    forall i, j, id | 0 <= i < j < |log| && ClaimsRun(log[i], id) && ClaimsRun(log[j], id) ::
      exists k :: i < k < j && RequeuesRun(log[k], id)
  }

  /** Concurrent claims never hand out one run twice, as long as no PATCH puts a run
      back into the queue. */
  lemma {:induction false} NoDoubleClaim(labels: seq<Label>, maxAttempts: int, rule: PatchRule)
    requires Behaviour(Init(maxAttempts), labels, rule) && NeverQueues(rule)
    ensures Exclusive(Final(Init(maxAttempts), labels, rule).log)
  {
    EveryInterleavingIsSerial(labels, maxAttempts, rule);
    var log := Final(Init(maxAttempts), labels, rule).log;
    forall i, j, id | 0 <= i < j < |log| && ClaimsRun(log[i], id) && ClaimsRun(log[j], id)
      ensures exists k :: i < k < j && RequeuesRun(log[k], id)
    {
      ClaimsAreSeparated(log, i, j, id, maxAttempts, rule);
    }
  }

  /** Whatever PATCHes are made, a second claim needs a sweep requeue or a PATCH of that
      run to queued. */
  lemma {:induction false} DoubleClaimNeedsPutBack(labels: seq<Label>, maxAttempts: int, rule: PatchRule, i: nat, j: nat, id: RunId)
    requires Behaviour(Init(maxAttempts), labels, rule)
    requires i < j < |Final(Init(maxAttempts), labels, rule).log|
    requires ClaimsRun(Final(Init(maxAttempts), labels, rule).log[i], id)
    requires ClaimsRun(Final(Init(maxAttempts), labels, rule).log[j], id)
    ensures exists k :: i < k < j && PutsBack(Final(Init(maxAttempts), labels, rule).log[k], id)
  {
    EveryInterleavingIsSerial(labels, maxAttempts, rule);
    ClaimsAreSeparatedDespitePatches(Final(Init(maxAttempts), labels, rule).log, i, j, id, maxAttempts, rule);
  }

  /** Every dependency of a run that some claim took exists and is completed. */
  ghost predicate DependenciesHold(s: State) {
    forall j, id, dep | 0 <= j < |s.log| && ClaimsRun(s.log[j], id) && id in s.rows && dep in s.rows[id].dependsOn ::
      dep in s.rows && s.rows[dep].status.Completed?
  }

  /** When no PATCH undoes a completion, every claimed run's dependencies exist, were
      completed before the claim and stay so. */
  lemma {:induction false} ClaimsFollowDependencies(labels: seq<Label>, maxAttempts: int, rule: PatchRule)
    requires Behaviour(Init(maxAttempts), labels, rule) && KeepsCompleted(rule)
    ensures DependenciesHold(Final(Init(maxAttempts), labels, rule))
  {
    EveryInterleavingIsSerial(labels, maxAttempts, rule);
    var s := Final(Init(maxAttempts), labels, rule);
    assert s.log[..|s.log|] == s.log;
    forall j, id, dep | 0 <= j < |s.log| && ClaimsRun(s.log[j], id) && id in s.rows && dep in s.rows[id].dependsOn
      ensures dep in s.rows && s.rows[dep].status.Completed?
    {
      StepAt(s.log, j, maxAttempts, rule);
      RowsPersist(s.log, j, |s.log|, id, maxAttempts, rule);
      DependenciesStayCompleted(s.log, j, id, dep, maxAttempts, rule);
    }
  }

  /** When besides only claims move runs on, a dependency that was enqueued as queued
      was itself claimed before. */
  lemma {:induction false} FirstClaimsFollowDependencies(labels: seq<Label>, maxAttempts: int, rule: PatchRule, j: nat, id: RunId, dep: RunId)
    requires Behaviour(Init(maxAttempts), labels, rule) && KeepsCompleted(rule) && KeepsWaiting(rule)
    requires var s := Final(Init(maxAttempts), labels, rule);
      j < |s.log| && ClaimsRun(s.log[j], id) && id in s.rows && dep in s.rows[id].dependsOn
    requires EnqueuedQueued(Final(Init(maxAttempts), labels, rule).log, dep)
    ensures exists i :: 0 <= i < j && ClaimsRun(Final(Init(maxAttempts), labels, rule).log[i], dep)
  {
    EveryInterleavingIsSerial(labels, maxAttempts, rule);
    var s := Final(Init(maxAttempts), labels, rule);
    assert s.log[..|s.log|] == s.log;
    StepAt(s.log, j, maxAttempts, rule);
    RowsPersist(s.log, j, |s.log|, id, maxAttempts, rule);
    ClaimOrderExtendsDependencies(s.log, j, id, dep, maxAttempts, rule);
  }

  /** Nor does any such interleaving claim a run on a dependency cycle of queued runs. */
  lemma {:induction false} NoClaimOnCycle(labels: seq<Label>, maxAttempts: int, rule: PatchRule, knot: set<RunId>)
    requires Behaviour(Init(maxAttempts), labels, rule) && KeepsCompleted(rule) && KeepsWaiting(rule)
    requires Knotted(Final(Init(maxAttempts), labels, rule).log, knot)
    ensures forall id | id in knot :: !ClaimedIn(Final(Init(maxAttempts), labels, rule).log, id)
  {
    EveryInterleavingIsSerial(labels, maxAttempts, rule);
    CyclesAreNeverClaimed(Final(Init(maxAttempts), labels, rule).log, knot, maxAttempts, rule);
  }

  /** Attempts stay below the limit in every interleaving, whatever PATCHes are made. A
      run is claimed at most max_attempts times when none puts it back into the queue,
      and makes at most 4 * max_attempts + 3 progress events when none takes it back. */
  lemma {:induction false} RetriesAreBounded(labels: seq<Label>, maxAttempts: int, id: RunId, rule: PatchRule)
    requires maxAttempts >= 1 && Behaviour(Init(maxAttempts), labels, rule)
    ensures var s := Final(Init(maxAttempts), labels, rule);
      && Serial(s.log, maxAttempts, rule)
      && (id in s.rows ==> s.rows[id].claimAttempts == RequeueCount(s.log, id) <= maxAttempts - 1)
      && (NeverQueues(rule) ==> ClaimCount(s.log, id) <= maxAttempts)
      && (NeverRaises(rule) ==> ProgressCount(s.log, id, maxAttempts, rule) <= 4 * maxAttempts + 3)
  {
    EveryInterleavingIsSerial(labels, maxAttempts, rule);
    var s := Final(Init(maxAttempts), labels, rule);
    AttemptsCountRequeues(s.log, id, maxAttempts, rule);
    if NeverQueues(rule) { ClaimedAtMostMaxAttempts(s.log, id, maxAttempts, rule); }
    if NeverRaises(rule) { ProgressIsBounded(s.log, id, maxAttempts, rule); }
  }

  /** Timed lease safety and exact counting, over every interleaving in which no PATCH
      makes a run claimed or running again: a run whose lease is kept is never swept,
      and two sweeps of a run have a claim between. */
  lemma {:induction false} SweepsRespectLeases(labels: seq<Label>, maxAttempts: int, id: RunId, rule: PatchRule)
    requires Behaviour(Init(maxAttempts), labels, rule) && NeverRevives(rule)
    ensures var log := Final(Init(maxAttempts), labels, rule).log;
      && (KeepsLease(log, id) ==> forall k | 0 <= k < |log| :: !SweepsRun(log[k], id))
      && (forall i, j | 0 <= i < j < |log| && SweepsRun(log[i], id) && SweepsRun(log[j], id) ::
            exists k :: i < k < j && ClaimsRun(log[k], id))
  {
    EveryInterleavingIsSerial(labels, maxAttempts, rule);
    var log := Final(Init(maxAttempts), labels, rule).log;
    if KeepsLease(log, id) { KeptLeaseIsNeverSwept(log, id, maxAttempts, rule); }
    forall i, j | 0 <= i < j < |log| && SweepsRun(log[i], id) && SweepsRun(log[j], id)
      ensures exists k :: i < k < j && ClaimsRun(log[k], id)
    {
      SweepsAreSeparated(log, i, j, id, maxAttempts, rule);
    }
  }

  // ----- A claim beside other transactions -----

  /** The rows a claim for `backend` takes when no other transaction is open. */
  function ClaimChoice(rows: Table, backend: string, session: int): seq<RunId> {
    Pack(Costed(rows, OrderBy(rows, ReadyIds(rows, backend))), session)
  }

  /** The ready rows that no open transaction holds, in queue order. */
  function FreeReady(s: State, backend: string): seq<RunId> {
    Filter((id: RunId) => Unlocked(s, id), OrderBy(s.rows, ReadyIds(s.rows, backend)))
  }

  lemma {:induction false} BehaviourConcat(s: State, a: seq<Label>, b: seq<Label>, rule: PatchRule)
    requires Behaviour(s, a, rule) && Behaviour(Final(s, a, rule), b, rule)
    ensures Behaviour(s, a + b, rule) && Final(s, a + b, rule) == Final(Final(s, a, rule), b, rule)
    decreases |a|
  {
    if a == [] {
      assert a + b == b;
    } else {
      BehaviourConcat(Do(s, a[0]), a[1..], b, rule);
      assert (a + b)[1..] == a[1..] + b;
    }
  }

  lemma {:induction false} TwoSteps(s: State, a: Label, b: Label, rule: PatchRule)
    requires !a.Patch? && !b.Patch? && Enabled(s, a) && Enabled(Do(s, a), b)
    ensures Behaviour(s, [a, b], rule) && Final(s, [a, b], rule) == Do(Do(s, a), b)
  {
    var s' := Do(s, a);
    assert [a, b][1..] == [b] && [b][1..] == [];
    assert Behaviour(Do(s', b), [], rule);
    assert Behaviour(s', [b], rule) && Final(s', [b], rule) == Do(s', b);
  }

  /** The rows among `ids` that nobody but `t` holds. */
  function FreeAmong(s: State, t: TxId, ids: seq<RunId>): seq<RunId> {
    Filter((id: RunId) => !LockedByOther(s, t, id), ids)
  }

  function LockLabels(t: TxId, n: nat): seq<Label> {
    seq(n, _ => LockNext(t))
  }

  /** One row of the scan: skipped when held elsewhere, else it becomes a candidate. */
  lemma {:induction false} LockOne(s: State, t: TxId)
    requires t in s.txs && s.txs[t].Claiming? && s.txs[t].phase.Locking? && s.txs[t].todo != []
    requires s.txs[t].snapshot == s.rows && s.txs[t].todo[0] in ReadyIds(s.rows, s.txs[t].backend)
    ensures Enabled(s, LockNext(t))
    ensures var tx := s.txs[t];
      Do(s, LockNext(t)) == s.(txs := s.txs[t := Do(s, LockNext(t)).txs[t]])
      && exists locked :: Do(s, LockNext(t)).txs[t]
           == tx.(todo := tx.todo[1..], candidates := tx.candidates + FreeAmong(s, t, [tx.todo[0]]), locked := locked)
  {
    var tx := s.txs[t];
    var id := tx.todo[0];
    assert [id][1..] == [] && Filter((k: RunId) => !LockedByOther(s, t, k), []) == [];
    var tx' := Do(s, LockNext(t)).txs[t];
    assert FreeAmong(s, t, [id]) == if LockedByOther(s, t, id) then [] else [id];
    assert tx' == tx.(todo := tx.todo[1..], candidates := tx.candidates + FreeAmong(s, t, [id]), locked := tx'.locked);
  }

  lemma {:induction false} LocksBesides(s: State, t: TxId, rule: PatchRule)
    requires t in s.txs && s.txs[t].Claiming? && s.txs[t].phase.Locking?
    requires s.txs[t].snapshot == s.rows
    requires forall id | id in s.txs[t].todo :: id in ReadyIds(s.rows, s.txs[t].backend)
    ensures var labels, tx := LockLabels(t, |s.txs[t].todo|), s.txs[t];
      && Behaviour(s, labels, rule)
      && t in Final(s, labels, rule).txs
      && Final(s, labels, rule) == s.(txs := s.txs[t := Final(s, labels, rule).txs[t]])
      && exists locked :: Final(s, labels, rule).txs[t]
           == tx.(todo := [], candidates := tx.candidates + FreeAmong(s, t, tx.todo), locked := locked)
    decreases |s.txs[t].todo|
  {
    var tx := s.txs[t];
    var labels := LockLabels(t, |tx.todo|);
    if tx.todo == [] {
      assert tx.(todo := [], candidates := tx.candidates + FreeAmong(s, t, tx.todo), locked := tx.locked) == tx;
      assert s.txs[t := tx] == s.txs;
    } else {
      var id, rest := tx.todo[0], tx.todo[1..];
      LockOne(s, t);
      var s' := Do(s, LockNext(t));
      LocksBesides(s', t, rule);
      assert labels[1..] == LockLabels(t, |rest|);
      OthersLocksStay(s, s', t, rest);
      FreeAmongSplits(s, t, tx.candidates, tx.todo);
    }
  }

  lemma {:induction false} FreeAmongSplits(s: State, t: TxId, candidates: seq<RunId>, todo: seq<RunId>)
    requires todo != []
    ensures (candidates + FreeAmong(s, t, [todo[0]])) + FreeAmong(s, t, todo[1..]) == candidates + FreeAmong(s, t, todo)
  {
    FilterConcat((k: RunId) => !LockedByOther(s, t, k), [todo[0]], todo[1..]);
    assert todo == [todo[0]] + todo[1..];
  }

  lemma {:induction false} OthersLocksStay(s: State, s': State, t: TxId, ids: seq<RunId>)
    requires t in s.txs && t in s'.txs && s' == s.(txs := s.txs[t := s'.txs[t]])
    ensures FreeAmong(s', t, ids) == FreeAmong(s, t, ids)
  {
    forall id | id in ids ensures LockedByOther(s, t, id) <==> LockedByOther(s', t, id) {
      if u :| u in s.txs && u != t && id in s.txs[u].locked { assert u in s'.txs && id in s'.txs[u].locked; }
      if u :| u in s'.txs && u != t && id in s'.txs[u].locked { assert u in s.txs && id in s.txs[u].locked; }
    }
    FilterAgrees((id: RunId) => !LockedByOther(s', t, id), (id: RunId) => !LockedByOther(s, t, id), ids);
  }

  /** From the point where every candidate is locked: pack, update, commit. */
  lemma {:induction false} WriteAndCommit(s: State, t: TxId)
    requires t in s.txs && s.txs[t].Claiming? && s.txs[t].phase.Locking? && s.txs[t].todo == []
    requires forall id | id in s.txs[t].candidates :: id in s.rows
    ensures Enabled(s, WriteClaims(t)) && Enabled(Do(s, WriteClaims(t)), Commit(t))
    ensures var tx, s' := s.txs[t], Do(Do(s, WriteClaims(t)), Commit(t));
      var ids := SetOf(Pack(Costed(s.rows, tx.candidates), tx.session));
      var e := ClaimedRuns(s.clock, ids, tx.backend, tx.session, tx.worker, tx.now, tx.lease);
      && ids <= s.rows.Keys && s' == s.(rows := Apply(s.rows, e), txs := s.txs - {t}, log := s.log + [e])
  {
    var tx := s.txs[t];
    var cs := Costed(s.rows, tx.candidates);
    var chosen := Pack(cs, tx.session);
    forall id | id in chosen ensures id in s.rows {
      SelectIsSubset(cs, Mask(cs, tx.session, tx.session), id);
    }
    var ids := SetOf(chosen);
    var written := WriteStep(s, t);
    assert written.writes.Keys == ids;
    var e := ClaimedRuns(s.clock, ids, tx.backend, tx.session, tx.worker, tx.now, tx.lease);
    var s1 := Do(s, WriteClaims(t));
    assert s1 == s.(txs := s.txs[t := written]);
    assert CommitEvent(s1, written) == e;
    assert s.rows + written.writes == Apply(s.rows, e);
    assert s1.txs - {t} == s.txs - {t};
  }

  /** A claim that has gathered its candidates, all else as in `s`. */
  predicate Gathered(s: State, s3: State, t: TxId, backend: string, session: int, worker: string, lease: int) {
    && t !in s.txs && t in s3.txs && s3 == s.(txs := s.txs[t := s3.txs[t]])
    && var tx := s3.txs[t];
       && tx.Claiming? && tx.phase.Locking? && tx.todo == [] && tx.candidates == FreeReady(s, backend)
       && tx.now == s.clock && tx.backend == backend && tx.session == session && tx.worker == worker && tx.lease == lease
  }

  /** A claim that has just taken its snapshot. */
  function Scanned(s: State, t: TxId, backend: string, session: int, worker: string, lease: int): State {
    s.(txs := s.txs[t := Claiming(s.clock, backend, session, worker, lease, Locking, s.rows,
                                  OrderBy(s.rows, ReadyIds(s.rows, backend)), [], {}, map[])])
  }

  lemma {:induction false} BeginsAndScans(s: State, t: TxId, backend: string, session: int, worker: string, lease: int, rule: PatchRule)
    requires t !in s.txs
    ensures var labels := [BeginClaim(t, backend, session, worker, lease), Scan(t)];
      Behaviour(s, labels, rule) && Final(s, labels, rule) == Scanned(s, t, backend, session, worker, lease)
  {
    var begin := BeginClaim(t, backend, session, worker, lease);
    TwoSteps(s, begin, Scan(t), rule);
    var s1 := Do(s, begin);
    assert Do(s1, Scan(t)).txs == Scanned(s, t, backend, session, worker, lease).txs;
  }

  lemma {:induction false} ScanIsGathered(s: State, s3: State, t: TxId, backend: string, session: int, worker: string, lease: int)
    requires t !in s.txs && t in s3.txs
    requires var s2 := Scanned(s, t, backend, session, worker, lease);
      && s3 == s2.(txs := s2.txs[t := s3.txs[t]])
      && exists locked :: s3.txs[t]
           == s2.txs[t].(todo := [], candidates := s2.txs[t].candidates + FreeAmong(s2, t, s2.txs[t].todo), locked := locked)
    ensures Gathered(s, s3, t, backend, session, worker, lease)
  {
    var s2 := Scanned(s, t, backend, session, worker, lease);
    FreeIsUnlocked(s, s2, t, backend);
    assert s2.txs[t].candidates == [] && s3.txs[t].candidates == FreeReady(s, backend);
    assert s3 == s.(txs := s.txs[t := s3.txs[t]]);
  }

  lemma {:induction false} Gathers(s: State, t: TxId, backend: string, session: int, worker: string, lease: int, rule: PatchRule)
    returns (labels: seq<Label>)
    requires t !in s.txs
    ensures Behaviour(s, labels, rule)
    ensures Gathered(s, Final(s, labels, rule), t, backend, session, worker, lease)
  {
    var first := [BeginClaim(t, backend, session, worker, lease), Scan(t)];
    BeginsAndScans(s, t, backend, session, worker, lease, rule);
    var s2 := Scanned(s, t, backend, session, worker, lease);
    var locks := LockLabels(t, |s2.txs[t].todo|);
    LocksBesides(s2, t, rule);
    ScanIsGathered(s, Final(s2, locks, rule), t, backend, session, worker, lease);
    BehaviourConcat(s, first, locks, rule);
    labels := first + locks;
  }

  /** A claim never waits: whatever other transactions are open, its statements can run
      to the commit at once and add up to one atomic claim of exactly the packer's
      choice over the ordered ready rows that nobody holds. */
  lemma {:induction false} ClaimBesides(s: State, t: TxId, backend: string, session: int, worker: string, lease: int, rule: PatchRule)
    returns (labels: seq<Label>)
    requires t !in s.txs
    ensures Behaviour(s, labels, rule)
    ensures forall id | id in FreeReady(s, backend) :: id in s.rows
    ensures var ids := SetOf(Pack(Costed(s.rows, FreeReady(s, backend)), session));
      var e := ClaimedRuns(s.clock, ids, backend, session, worker, s.clock, lease);
      ids <= s.rows.Keys && Final(s, labels, rule) == s.(rows := Apply(s.rows, e), log := s.log + [e])
  {
    var gather := Gathers(s, t, backend, session, worker, lease, rule);
    var s3 := Final(s, gather, rule);
    FreeIsReady(s, backend);
    WriteAndCommit(s3, t);
    assert s3.txs - {t} == s.txs;
    TwoSteps(s3, WriteClaims(t), Commit(t), rule);
    BehaviourConcat(s, gather, [WriteClaims(t), Commit(t)], rule);
    labels := gather + [WriteClaims(t), Commit(t)];
  }

  lemma {:induction false} FreeIsReady(s: State, backend: string)
    ensures forall id | id in FreeReady(s, backend) :: id in ReadyIds(s.rows, backend)
  {
    var order := OrderBy(s.rows, ReadyIds(s.rows, backend));
    forall id | id in FreeReady(s, backend) ensures id in ReadyIds(s.rows, backend) {
      FilterKeeps((k: RunId) => Unlocked(s, k), order, id);
    }
  }

  lemma {:induction false} FreeIsUnlocked(s: State, s2: State, t: TxId, backend: string)
    requires t !in s.txs && t in s2.txs && s2 == s.(txs := s.txs[t := s2.txs[t]])
    ensures FreeAmong(s2, t, OrderBy(s.rows, ReadyIds(s.rows, backend))) == FreeReady(s, backend)
  {
    var order := OrderBy(s.rows, ReadyIds(s.rows, backend));
    forall id | id in order ensures !LockedByOther(s2, t, id) <==> Unlocked(s, id) {
      if u :| u in s.txs && id in s.txs[u].locked { assert u in s2.txs && u != t && id in s2.txs[u].locked; }
    }
    FilterAgrees((id: RunId) => !LockedByOther(s2, t, id), (id: RunId) => Unlocked(s, id), order);
  }

  /** Run with no other open transaction, that is one atomic claim of exactly the
      packer's choice over all the ordered ready rows. */
  lemma {:induction false} ClaimAlone(s: State, t: TxId, backend: string, session: int, worker: string, lease: int, rule: PatchRule)
    returns (labels: seq<Label>)
    requires s.txs == map[]
    ensures Behaviour(s, labels, rule)
    ensures var ids := set id | id in ClaimChoice(s.rows, backend, session);
      var e := ClaimedRuns(s.clock, ids, backend, session, worker, s.clock, lease);
      && ids <= s.rows.Keys
      && Final(s, labels, rule) == s.(rows := Apply(s.rows, e), log := s.log + [e])
  {
    labels := ClaimBesides(s, t, backend, session, worker, lease, rule);
    var order := OrderBy(s.rows, ReadyIds(s.rows, backend));
    AllFree(s, order);
    var ids := set id | id in ClaimChoice(s.rows, backend, session);
    assert ids == SetOf(ClaimChoice(s.rows, backend, session));
  }

  lemma {:induction false} AllFree(s: State, ids: seq<RunId>)
    requires s.txs == map[]
    ensures Filter((id: RunId) => Unlocked(s, id), ids) == ids
  {
    if ids != [] { AllFree(s, ids[1..]); }
  }

  /** FOR UPDATE SKIP LOCKED, one row: a row held by someone else is passed over; any
      other is held from now on, and is a candidate if its newest version is queued for
      this backend, by the dependencies the snapshot shows. */
  lemma {:induction false} OneRowOfTheScan(s: State, t: TxId)
    requires Enabled(s, LockNext(t))
    ensures var before, after, id := s.txs[t], Do(s, LockNext(t)).txs[t], s.txs[t].todo[0];
      var held := exists u :: u in s.txs && u != t && id in s.txs[u].locked;
      var r := s.rows[id];
      var wanted := r.status.Queued? && (r.backend.None? || r.backend == Some("any") || r.backend == Some(before.backend))
                    && forall d | d in r.dependsOn :: d in before.snapshot && before.snapshot[d].status.Completed?;
      && after.todo == before.todo[1..] && after.writes == before.writes
      && after.locked == before.locked + (if held then {} else {id})
      && after.candidates == before.candidates + if !held && wanted then [id] else []
    ensures Enabled(s, SkipNext(t)) && Do(s, SkipNext(t)).txs[t].todo == s.txs[t].todo[1..]
    ensures Do(s, SkipNext(t)).txs[t].locked == s.txs[t].locked && Do(s, SkipNext(t)).txs[t].candidates == s.txs[t].candidates
  {
    var id := s.txs[t].todo[0];
    assert LockedByOther(s, t, id) <==> exists u :: u in s.txs && u != t && id in s.txs[u].locked;
  }

  /** A transaction that ends lets go of all its rows; aborted, it leaves no other trace. */
  lemma {:induction false} EndReleases(s: State, t: TxId, id: RunId)
    requires t in s.txs
    ensures var after := Do(s, Abort(t));
      && after.rows == s.rows && after.log == s.log && after.clock == s.clock
      && (Unlocked(after, id) <==> forall u | u in s.txs && u != t :: id !in s.txs[u].locked)
    ensures Enabled(s, Commit(t)) ==> (Unlocked(Do(s, Commit(t)), id) <==> Unlocked(Do(s, Abort(t)), id))
  {
    var after := Do(s, Abort(t));
    forall u ensures u in after.txs <==> u in s.txs && u != t {}
    forall u | u in after.txs ensures after.txs[u] == s.txs[u] {}
  }

  /** Nothing but a lock on its own row ever makes a statement wait: updates then find
      what to do in the row's status, an open sweep visits any row and moves on or
      commits, any transaction begins or aborts, and time passes. */
  lemma {:induction false} OnlyRowLocksBlock(s: State, id: RunId, now: int, lease: int, outcome: Status, patch: Option<Status>, t: TxId, clock: int)
    requires id in s.rows && now <= s.clock <= clock && forall u | u in s.txs && u != t :: id !in s.txs[u].locked
    ensures t !in s.txs ==>
      var status := s.rows[id].status;
      && Enabled(s, Patch(id, patch))
      && (status.Claimed? || status.Running? ==> Enabled(s, Renew(id, now, lease)))
      && (status.Claimed? || status.Running? ==> outcome.Completed? || outcome.Failed? || outcome.Killed? ==> Enabled(s, Finish(id, outcome)))
      && (status.Queued? || status.Claimed? ==> Enabled(s, Cancel(id)))
      && Enabled(s, BeginSweep(t))
    ensures t in s.txs && s.txs[t].Sweeping? ==>
      Enabled(s, SweepRow(t, id)) && (if s.txs[t].secondStatement then Enabled(s, Commit(t)) else Enabled(s, NextStatement(t)))
    ensures t in s.txs ==> Enabled(s, Abort(t))
    ensures Enabled(s, Tick(clock))
  {
  }

  // ----- A sweep with nobody else around -----

  /** What one sweep statement makes of a row version. */
  function SweptVersion(r: Run, now: int, maxAttempts: int, second: bool): Run {
    if !second && Requeues(r, now, maxAttempts) then RequeueRow(r)
    else if second && Loses(r, now, maxAttempts) then LoseRow(r)
    else r
  }

  function SweepLabels(t: TxId, ids: seq<RunId>): seq<Label> {
    seq(|ids|, i requires 0 <= i < |ids| => SweepRow(t, ids[i]))
  }

  /** Transaction `t` alone, after one sweep statement has visited `ids`. */
  predicate SweptOver(s: State, s': State, t: TxId, ids: seq<RunId>)
    requires t in s.txs && s.txs[t].Sweeping?
  {
    var tx := s.txs[t];
    && s'.txs.Keys == {t} && s'.txs[t].Sweeping? && s' == s.(txs := s'.txs)
    && s'.txs[t].now == tx.now && s'.txs[t].secondStatement == tx.secondStatement
    && (forall id | id in s.rows && id in ids ::
          View(s', s'.txs[t], id) == SweptVersion(View(s, tx, id), tx.now, s.maxAttempts, tx.secondStatement))
    && (forall id | id in s.rows && id !in ids :: View(s', s'.txs[t], id) == View(s, tx, id))
    && (forall id | id in s.rows :: id in s'.txs[t].writes <==>
          id in tx.writes || View(s', s'.txs[t], id) != View(s, tx, id))
    && (tx.writes.Keys <= s.rows.Keys ==> s'.txs[t].writes.Keys <= s.rows.Keys)
  }

  lemma {:induction false} StatementAlone(s: State, t: TxId, ids: seq<RunId>, rule: PatchRule)
    requires s.txs.Keys == {t} && s.txs[t].Sweeping? && forall id | id in ids :: id in s.rows
    ensures Behaviour(s, SweepLabels(t, ids), rule)
    ensures SweptOver(s, Final(s, SweepLabels(t, ids), rule), t, ids)
    decreases |ids|
  {
    var labels := SweepLabels(t, ids);
    if ids == [] {
      assert labels == [];
    } else {
      assert ids[0] in ids;
      assert Enabled(s, labels[0]);
      var s' := Do(s, labels[0]);
      assert SweptOver(s, s', t, [ids[0]]);
      StatementAlone(s', t, ids[1..], rule);
      assert labels[1..] == SweepLabels(t, ids[1..]);
      var s2 := Final(s', labels[1..], rule);
      SweptThen(s, s', s2, t, ids);
    }
  }

  lemma {:induction false} SweptThen(s: State, s': State, s2: State, t: TxId, ids: seq<RunId>)
    requires ids != [] && t in s.txs && s.txs[t].Sweeping? && SweptOver(s, s', t, [ids[0]])
    requires SweptOver(s', s2, t, ids[1..])
    ensures SweptOver(s, s2, t, ids)
  {
    forall id | id in s.rows
      ensures View(s2, s2.txs[t], id) ==
        if id in ids then SweptVersion(View(s, s.txs[t], id), s.txs[t].now, s.maxAttempts, s.txs[t].secondStatement)
        else View(s, s.txs[t], id)
    {
      assert id in ids <==> id == ids[0] || id in ids[1..];
    }
  }

  /** The event of a sweep that takes every row it may. */
  function FullSweep(s: State): Event {
    Swept(s.clock,
          (set id | id in s.rows && Requeues(s.rows[id], s.clock, s.maxAttempts)),
          (set id | id in s.rows && Loses(s.rows[id], s.clock, s.maxAttempts)),
          s.clock)
  }

  /** What the two statements make of one row. */
  lemma {:induction false} RowSweptTwice(s: State, s1: State, s2: State, t: TxId, ids: seq<RunId>, id: RunId)
    requires s.txs == map[t := Sweeping(s.clock, false, {}, map[])] && id in ids && id in s.rows
    requires SweptOver(s, s1, t, ids)
    requires Enabled(s1, NextStatement(t)) && SweptOver(Do(s1, NextStatement(t)), s2, t, ids)
    ensures View(s2, s2.txs[t], id) == Apply(s.rows, FullSweep(s))[id]
    ensures id in s2.txs[t].writes <==> id in FullSweep(s).requeued || id in FullSweep(s).lost
  {
    var mid := Do(s1, NextStatement(t));
    assert mid.rows == s.rows && mid.clock == s.clock && mid.maxAttempts == s.maxAttempts;
    assert View(s, s.txs[t], id) == s.rows[id];
    assert View(mid, mid.txs[t], id) == View(s1, s1.txs[t], id) == SweptVersion(s.rows[id], s.clock, s.maxAttempts, false);
    assert View(s2, s2.txs[t], id) == SweptVersion(View(mid, mid.txs[t], id), s.clock, s.maxAttempts, true);
  }

  /** Transaction `t`, alone since it began in `s`, has been through both statements. */
  predicate SweptFully(s: State, s2: State, t: TxId) {
    && s2.txs.Keys == {t} && s2.txs[t].Sweeping? && s2 == s.(txs := s2.txs)
    && s2.txs[t].secondStatement && s2.txs[t].now == s.clock
    && s2.txs[t].writes.Keys == FullSweep(s).requeued + FullSweep(s).lost
    && forall id | id in s.rows :: View(s2, s2.txs[t], id) == Apply(s.rows, FullSweep(s))[id]
  }

  /** Two statements over all rows, from the begun sweep. */
  lemma {:induction false} TwoStatementsSweep(s: State, s1: State, s2: State, t: TxId, ids: seq<RunId>)
    requires s.txs == map[t := Sweeping(s.clock, false, {}, map[])]
    requires forall id :: id in ids <==> id in s.rows
    requires SweptOver(s, s1, t, ids)
    requires Enabled(s1, NextStatement(t)) && SweptOver(Do(s1, NextStatement(t)), s2, t, ids)
    ensures SweptFully(s, s2, t)
  {
    forall id | id in s.rows
      ensures View(s2, s2.txs[t], id) == Apply(s.rows, FullSweep(s))[id]
      ensures id in s2.txs[t].writes <==> id in FullSweep(s).requeued || id in FullSweep(s).lost
    {
      RowSweptTwice(s, s1, s2, t, ids, id);
    }
    assert s2.txs[t].writes.Keys <= s.rows.Keys;
  }

  lemma {:induction false} FullSweepCommits(s: State, s2: State, t: TxId)
    requires SweptFully(s, s2, t)
    ensures Enabled(s2, Commit(t))
    ensures Do(s2, Commit(t)) == s.(rows := Apply(s.rows, FullSweep(s)), txs := map[], log := s.log + [FullSweep(s)])
  {
    SweepWrites(s.rows, s2.txs[t].writes, FullSweep(s));
    assert CommitEvent(s2, s2.txs[t]) == FullSweep(s);
    assert s2.txs - {t} == map[];
  }

  /** Row versions that make up a sweep's event, taken together. */
  lemma {:induction false} SweepWrites(rows: Table, writes: Table, e: Event)
    requires e.Swept? && e.requeued <= rows.Keys && e.lost <= rows.Keys && e.requeued !! e.lost
    requires writes.Keys == e.requeued + e.lost
    requires forall id | id in rows :: (if id in writes then writes[id] else rows[id]) == Apply(rows, e)[id]
    ensures rows + writes == Apply(rows, e)
    ensures WithStatus(writes, Queued) == e.requeued && WithStatus(writes, Lost) == e.lost
  {
    assert forall id | id in writes :: writes[id] == if id in e.requeued then RequeueRow(rows[id]) else LoseRow(rows[id]);
  }

  /** The middle of a sweep alone: both statements over all rows. */
  lemma {:induction false} BothStatementsAlone(s: State, t: TxId, ids: seq<RunId>, rule: PatchRule) returns (labels: seq<Label>)
    requires s.txs == map[t := Sweeping(s.clock, false, {}, map[])] && forall id :: id in ids <==> id in s.rows
    ensures Behaviour(s, labels, rule)
    ensures var s2 := Final(s, labels, rule);
      && Enabled(s2, Commit(t))
      && Do(s2, Commit(t)) == s.(rows := Apply(s.rows, FullSweep(s)), txs := map[], log := s.log + [FullSweep(s)])
  {
    var visit := SweepLabels(t, ids);
    StatementAlone(s, t, ids, rule);
    var s1 := Final(s, visit, rule);
    var mid := Do(s1, NextStatement(t));
    StatementAlone(mid, t, ids, rule);
    TwoStatementsSweep(s, s1, Final(mid, visit, rule), t, ids);
    FullSweepCommits(s, Final(mid, visit, rule), t);
    StepThen(s1, NextStatement(t), visit, rule);
    BehaviourConcat(s, visit, [NextStatement(t)] + visit, rule);
    labels := visit + ([NextStatement(t)] + visit);
  }

  /** Run with no other open transaction, the two statements of a sweep, visiting
      every row, add up to one atomic sweep of exactly the expired leases. */
  lemma {:induction false} SweepAlone(s: State, t: TxId, rule: PatchRule) returns (labels: seq<Label>)
    requires s.txs == map[]
    ensures Behaviour(s, labels, rule)
    ensures Final(s, labels, rule) == s.(rows := Apply(s.rows, FullSweep(s)), log := s.log + [FullSweep(s)])
  {
    var s0 := Do(s, BeginSweep(t));
    var statements := BothStatementsAlone(s0, t, OrderBy(s.rows, s.rows.Keys), rule);
    OneStep(Final(s0, statements, rule), Commit(t), rule);
    BehaviourConcat(s0, statements, [Commit(t)], rule);
    StepThen(s, BeginSweep(t), statements + [Commit(t)], rule);
    labels := [BeginSweep(t)] + (statements + [Commit(t)]);
  }

  lemma {:induction false} StepThen(s: State, l: Label, rest: seq<Label>, rule: PatchRule)
    requires !l.Patch? && Enabled(s, l) && Behaviour(Do(s, l), rest, rule)
    ensures Behaviour(s, [l] + rest, rule) && Final(s, [l] + rest, rule) == Final(Do(s, l), rest, rule)
  {
    assert ([l] + rest)[1..] == rest;
  }

  lemma {:induction false} OneStep(s: State, l: Label, rule: PatchRule)
    requires !l.Patch? && Enabled(s, l)
    ensures Behaviour(s, [l], rule) && Final(s, [l], rule) == Do(s, l)
  {
    assert [l][1..] == [];
    assert Behaviour(Do(s, l), [], rule);
  }
}
