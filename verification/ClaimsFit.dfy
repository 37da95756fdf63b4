/** What every claim takes. */
module ClaimsFit {
  // Whatever it ran beside: runs of the worker's backend, within the worker's session
  // (service/runs.py).

  import opened Common
  import opened RunRows
  import opened Packing
  import opened RunEvents
  import opened RunProtocol

  function EstCost(r: Run): int { if r.estSeconds.None? then 0 else r.estSeconds.value }

  function CostIn(rows: Table): RunId -> int {
    id => if id in rows then EstCost(rows[id]) else 0
  }

  /** Every run is for the backend and fits the session, and so do all together. */
  ghost predicate Fits(rows: Table, ids: set<RunId>, backend: string, session: int) {
    && ids <= rows.Keys
    && (forall id | id in ids :: BackendOk(rows[id], backend) && EstCost(rows[id]) <= session)
    && (ids != {} ==> SumOver(CostIn(rows), ids) <= session)
  }

  /** No row goes away, and none changes its backend or estimate. */
  predicate Persists(rows: Table, rows': Table) {
    && rows.Keys <= rows'.Keys
    && forall id | id in rows :: rows'[id].backend == rows[id].backend && rows'[id].estSeconds == rows[id].estSeconds
  }

  lemma {:induction false} EventsPersist(rows: Table, e: Event, maxAttempts: int)
    requires Legal(rows, e, maxAttempts)
    ensures Persists(rows, Apply(rows, e))
  {
  }

  lemma {:induction false} FitsPersists(rows: Table, rows': Table, ids: set<RunId>, backend: string, session: int)
    requires Fits(rows, ids, backend, session) && Persists(rows, rows')
    ensures Fits(rows', ids, backend, session)
  {
    SumAgrees(CostIn(rows), CostIn(rows'), ids);
  }

  // ----- The packer's choice fits -----

  /** The cost of a selection of distinct candidates is the sum over the chosen ids. */
  lemma {:induction false} SpentIsSum(rows: Table, ids: seq<RunId>, mask: seq<bool>)
    requires |mask| == |ids| && Distinct(ids) && forall id | id in ids :: id in rows
    ensures forall id | id in Select(Costed(rows, ids), mask) :: id in ids
    ensures Spent(Costed(rows, ids), mask) == SumOver(CostIn(rows), SetOf(Select(Costed(rows, ids), mask)))
  {
    var cs := Costed(rows, ids);
    var chosen := Select(cs, mask);
    if ids != [] {
      assert cs[1..] == Costed(rows, ids[1..]);
      assert forall i | 0 <= i < |ids[1..]| :: ids[1..][i] == ids[i + 1];
      SpentIsSum(rows, ids[1..], mask[1..]);
      var rest := Select(cs[1..], mask[1..]);
      assert ids[0] !in ids[1..];
      if mask[0] {
        assert chosen == [ids[0]] + rest;
        assert SetOf(chosen) - {ids[0]} == SetOf(rest);
        SumTakes(CostIn(rows), SetOf(chosen), ids[0]);
      } else {
        assert chosen == rest;
      }
    }
  }

  lemma {:induction false} PackFits(rows: Table, ids: seq<RunId>, backend: string, session: int)
    requires Distinct(ids) && forall id | id in ids :: id in rows && BackendOk(rows[id], backend)
    ensures Fits(rows, SetOf(Pack(Costed(rows, ids), session)), backend, session)
  {
    var cs := Costed(rows, ids);
    var mask := Mask(cs, session, session);
    var chosen := SetOf(Pack(cs, session));
    TakenFits(cs, session, session);
    SpentIsSum(rows, ids, mask);
    forall id | id in chosen
      ensures id in rows && BackendOk(rows[id], backend) && EstCost(rows[id]) <= session
      ensures exists i :: 0 <= i < |cs| && mask[i]
    {
      SelectIsSubset(cs, mask, id);
      var i :| 0 <= i < |cs| && mask[i] && cs[i].id == id;
      assert ids[i] in ids && Cost(cs[i]) == EstCost(rows[id]);
    }
  }

  // ----- Over every interleaving -----

  /** What a claim has gathered so far. */
  ghost predicate TxFits(rows: Table, tx: Tx) {
    tx.Claiming? ==>
      && Distinct(tx.candidates + tx.todo)
      && (forall id | id in tx.candidates + tx.todo :: id in rows && BackendOk(rows[id], tx.backend))
      && (tx.phase.Started? ==> tx.candidates == [])
      && Fits(rows, tx.writes.Keys, tx.backend, tx.session)
  }

  ghost predicate LogFits(rows: Table, log: seq<Event>) {
    forall k | 0 <= k < |log| && log[k].ClaimedRuns? :: Fits(rows, log[k].ids, log[k].backend, log[k].session)
  }

  ghost predicate AllFit(s: State) {
    (forall t | t in s.txs :: TxFits(s.rows, s.txs[t])) && LogFits(s.rows, s.log)
  }

  lemma {:induction false} TxFitsPersists(rows: Table, rows': Table, tx: Tx)
    requires TxFits(rows, tx) && Persists(rows, rows')
    ensures TxFits(rows', tx)
  {
    if tx.Claiming? { FitsPersists(rows, rows', tx.writes.Keys, tx.backend, tx.session); }
  }

  /** A commit keeps what fitted, and logs a claim that fits. */
  lemma {:induction false} CommitFits(s: State, s': State, e: Event)
    requires AllFit(s) && Legal(s.rows, e, s.maxAttempts)
    requires e.ClaimedRuns? ==> Fits(s.rows, e.ids, e.backend, e.session)
    requires s'.rows == Apply(s.rows, e) && s'.log == s.log + [e]
    requires forall t | t in s'.txs :: t in s.txs && s'.txs[t] == s.txs[t]
    ensures AllFit(s')
  {
    EventsPersist(s.rows, e, s.maxAttempts);
    forall t | t in s'.txs ensures TxFits(s'.rows, s'.txs[t]) { TxFitsPersists(s.rows, s'.rows, s.txs[t]); }
    forall k | 0 <= k < |s'.log| && s'.log[k].ClaimedRuns?
      ensures Fits(s'.rows, s'.log[k].ids, s'.log[k].backend, s'.log[k].session)
    {
      assert k < |s.log| ==> s'.log[k] == s.log[k];
      FitsPersists(s.rows, s'.rows, s'.log[k].ids, s'.log[k].backend, s'.log[k].session);
    }
  }

  lemma {:induction false} ScanFits(rows: Table, tx: Tx)
    requires TxFits(rows, tx) && tx.Claiming? && tx.phase.Started?
    ensures TxFits(rows, tx.(phase := Locking, snapshot := rows, todo := OrderBy(rows, ReadyIds(rows, tx.backend))))
  {
    var todo := OrderBy(rows, ReadyIds(rows, tx.backend));
    assert [] + todo == todo;
    assert forall id | id in todo :: id in ReadyIds(rows, tx.backend);
  }

  /** Moving the head of `todo` to the candidates, or dropping it, leaves no double. */
  lemma {:induction false} HeadMoves(candidates: seq<RunId>, todo: seq<RunId>)
    requires todo != [] && Distinct(candidates + todo)
    ensures (candidates + [todo[0]]) + todo[1..] == candidates + todo
    ensures Distinct(candidates + todo[1..])
    ensures forall id | id in candidates + todo[1..] :: id in candidates + todo
  {
    var all, less := candidates + todo, candidates + todo[1..];
    forall i, j | 0 <= i < j < |less| ensures less[i] != less[j] {
      var n := |candidates|;
      assert less[i] == all[if i < n then i else i + 1] && less[j] == all[if j < n then j else j + 1];
    }
  }

  lemma {:induction false} LockFits(s: State, t: TxId)
    requires Enabled(s, LockNext(t)) && TxFits(s.rows, s.txs[t])
    ensures TxFits(s.rows, LockStep(s, t))
    ensures TxFits(s.rows, s.txs[t].(todo := s.txs[t].todo[1..]))
  {
    HeadMoves(s.txs[t].candidates, s.txs[t].todo);
  }

  lemma {:induction false} WriteFits(s: State, t: TxId)
    requires Enabled(s, WriteClaims(t)) && TxFits(s.rows, s.txs[t])
    ensures TxFits(s.rows, WriteStep(s, t))
  {
    var tx := s.txs[t];
    assert tx.candidates + tx.todo == tx.candidates;
    PackFits(s.rows, tx.candidates, tx.backend, tx.session);
    var chosen := Pack(Costed(s.rows, tx.candidates), tx.session);
    assert WriteStep(s, t).writes.Keys == SetOf(chosen);
  }

  lemma {:induction false} LocalFits(s: State, t: TxId, tx': Tx)
    requires AllFit(s) && TxFits(s.rows, tx')
    ensures AllFit(s.(txs := s.txs[t := tx']))
  {
  }

  predicate ClaimStep(l: Label) { l.BeginClaim? || l.Scan? || l.LockNext? || l.SkipNext? || l.WriteClaims? }

  predicate SweepOnlyStep(l: Label) { l.BeginSweep? || l.SweepRow? || l.NextStatement? }

  lemma {:induction false} ClaimStepFits(s: State, l: Label)
    requires AllFit(s) && Enabled(s, l) && ClaimStep(l)
    ensures AllFit(Do(s, l))
  {
    match l
    case BeginClaim(t, backend, session, worker, lease) =>
      LocalFits(s, t, Claiming(s.clock, backend, session, worker, lease, Started, map[], [], [], {}, map[]));
    case Scan(t) =>
      var tx := s.txs[t];
      ScanFits(s.rows, tx);
      LocalFits(s, t, tx.(phase := Locking, snapshot := s.rows, todo := OrderBy(s.rows, ReadyIds(s.rows, tx.backend))));
    case LockNext(t) =>
      LockFits(s, t);
      LocalFits(s, t, LockStep(s, t));
    case SkipNext(t) =>
      HeadMoves(s.txs[t].candidates, s.txs[t].todo);
      LocalFits(s, t, s.txs[t].(todo := s.txs[t].todo[1..]));
    case WriteClaims(t) =>
      WriteFits(s, t);
      LocalFits(s, t, WriteStep(s, t));
  }

  lemma {:induction false} SweepStepFits(s: State, l: Label)
    requires AllFit(s) && Enabled(s, l) && SweepOnlyStep(l)
    ensures AllFit(Do(s, l))
  {
    match l
    case BeginSweep(t) => LocalFits(s, t, Sweeping(s.clock, false, {}, map[]));
    case SweepRow(t, id) => LocalFits(s, t, SweepStep(s, t, id));
    case NextStatement(t) => LocalFits(s, t, s.txs[t].(secondStatement := true));
  }

  lemma {:induction false} CommitStepFits(s: State, t: TxId, rule: PatchRule)
    requires Inv(s, rule) && AllFit(s) && Enabled(s, Commit(t))
    ensures AllFit(Do(s, Commit(t)))
  {
    if s.txs[t].Claiming? { ClaimCommitIsAtomic(s, t, rule); } else { SweepCommitIsAtomic(s, t, rule); }
    CommitFits(s, Do(s, Commit(t)), CommitEvent(s, s.txs[t]));
  }

  lemma {:induction false} StepFits(s: State, l: Label, rule: PatchRule)
    requires Inv(s, rule) && AllFit(s) && Takes(s, l, rule)
    ensures AllFit(Do(s, l))
  {
    if ClaimStep(l) {
      ClaimStepFits(s, l);
    } else if SweepOnlyStep(l) {
      SweepStepFits(s, l);
    } else if l.Commit? {
      CommitStepFits(s, l.t, rule);
    } else if Immediate(s, l).Some? {
      CommitFits(s, Do(s, l), Immediate(s, l).value);
    }
  }

  lemma {:induction false} BehaviourFits(s: State, labels: seq<Label>, rule: PatchRule)
    requires Inv(s, rule) && AllFit(s) && Behaviour(s, labels, rule)
    ensures AllFit(Final(s, labels, rule))
    decreases |labels|
  {
    if labels != [] {
      StepKeepsInv(s, labels[0], rule);
      StepFits(s, labels[0], rule);
      BehaviourFits(Do(s, labels[0]), labels[1..], rule);
    }
  }

  /** Over every interleaving, arbitrary PATCHes included, every committed claim takes
      only runs its backend may run, none longer than its session, and all of them
      together within it, for estimates of any sign. */
  lemma {:induction false} EveryClaimFits(labels: seq<Label>, maxAttempts: int, rule: PatchRule, k: nat)
    requires Behaviour(Init(maxAttempts), labels, rule)
    requires k < |Final(Init(maxAttempts), labels, rule).log| && Final(Init(maxAttempts), labels, rule).log[k].ClaimedRuns?
    ensures var s := Final(Init(maxAttempts), labels, rule);
      Fits(s.rows, s.log[k].ids, s.log[k].backend, s.log[k].session)
  {
    BehaviourFits(Init(maxAttempts), labels, rule);
  }
}
