/** The PATCHes of a run's status that the queue can bear. */
module PatchRules {
  // Which free-form PATCHes (update_run in service/runs.py) leave the queue's promises
  // standing: for each promise the exact condition on the PATCHes that clients make.

  import opened Common
  import opened RunRows
  import opened Packing
  import opened RunEvents
  import opened RunProtocol

  /** A wider rule allows everything a narrower one does. */
  lemma {:induction false} BehaviourWidens(s: State, labels: seq<Label>, rule: PatchRule, wider: PatchRule)
    requires Behaviour(s, labels, rule) && forall st, p | rule(st, p) :: wider(st, p)
    ensures Behaviour(s, labels, wider) && Final(s, labels, wider) == Final(s, labels, rule)
    decreases |labels|
  {
    if labels != [] { BehaviourWidens(Do(s, labels[0]), labels[1..], rule, wider); }
  }

  /** A claim of the only ready run, one without backend or estimate. */
  lemma {:induction false} ClaimOnly(s: State, t: TxId, id: RunId, worker: string, lease: int, rule: PatchRule) returns (labels: seq<Label>)
    requires s.txs == map[] && id in s.rows && Ready(s.rows[id], s.rows)
    requires forall k | k in s.rows && k != id :: !s.rows[k].status.Queued?
    requires s.rows[id].backend.None? && s.rows[id].estSeconds.None?
    ensures Behaviour(s, labels, rule)
    ensures var e := ClaimedRuns(s.clock, {id}, "gpu", 600, worker, s.clock, lease);
      Final(s, labels, rule) == s.(rows := Apply(s.rows, e), log := s.log + [e])
  {
    labels := ClaimAlone(s, t, "gpu", 600, worker, lease, rule);
    assert ReadyIds(s.rows, "gpu") == {id};
    OrderOfOne(s.rows, id);
    PackOneFree(id, 600);
    assert Costed(s.rows, [id]) == [Candidate(id, None)];
    assert ClaimChoice(s.rows, "gpu", 600) == [id];
    var ids := set k | k in ClaimChoice(s.rows, "gpu", 600);
    assert ids == {id};
    assert Final(s, labels, rule).rows == Apply(s.rows, ClaimedRuns(s.clock, ids, "gpu", 600, worker, s.clock, lease));
  }

  /** One run in the table, claimed, with a lease about to end and no attempt left. */
  predicate OneClaimed(s: State, id: RunId) {
    && s.txs == map[] && s.maxAttempts == 1
    && s.rows == map[id := ClaimRow(PLAIN_RUN, "a", s.clock, 0)]
  }

  /** The run's only row, whose claim has left it in some status. */
  predicate OneIn(s: State, id: RunId, status: Status) {
    && s.txs == map[] && s.rows.Keys == {id} && s.rows[id].status == status
    && s.rows[id].dependsOn == [] && s.rows[id].backend.None? && s.rows[id].estSeconds.None?
  }

  /** The log goes on without a PATCH, a claim or a requeue of the run. */
  predicate QuietSince(before: seq<Event>, after: seq<Event>, id: RunId) {
    && before <= after
    && forall k | |before| <= k < |after| :: !after[k].Patched? && !RequeuesRun(after[k], id) && !ClaimsRun(after[k], id)
  }

  /** From its claim a run can get to every status but queued without a PATCH. */
  lemma {:induction false} ReachesStatus(s: State, id: RunId, status: Status, rule: PatchRule) returns (labels: seq<Label>)
    requires OneClaimed(s, id) && !status.Queued?
    ensures Behaviour(s, labels, rule)
    ensures OneIn(Final(s, labels, rule), id, status) && QuietSince(s.log, Final(s, labels, rule).log, id)
  {
    match status
    case Claimed => labels := [];
    case Lost => labels := LosesRun(s, id, rule);
    case _ =>
      var l := if status.Running? then Renew(id, s.clock, 0) else if status.Cancelled? then Cancel(id) else Finish(id, status);
      OneStep(s, l, rule);
      labels := [l];
  }

  lemma {:induction false} LosesRun(s: State, id: RunId, rule: PatchRule) returns (labels: seq<Label>)
    requires OneClaimed(s, id)
    ensures Behaviour(s, labels, rule)
    ensures OneIn(Final(s, labels, rule), id, Lost) && QuietSince(s.log, Final(s, labels, rule).log, id)
  {
    var later := Do(s, Tick(s.clock + 1));
    var sweep := SweepAlone(later, 0, rule);
    StepThen(s, Tick(s.clock + 1), sweep, rule);
    assert FullSweep(later).requeued == {} && id in FullSweep(later).lost;
    labels := [Tick(s.clock + 1)] + sweep;
  }

  /** The narrowest rule that lets PATCHes take runs from `from` back to queued. */
  function Requeuing(from: Status): PatchRule { (s, p) => s == from && p == Some(Queued) }

  /** One run, enqueued, claimed and gone on into some status. */
  lemma {:induction false} ClaimedInto(id: RunId, status: Status, rule: PatchRule) returns (labels: seq<Label>)
    requires !status.Queued?
    ensures Behaviour(Init(1), labels, rule)
    ensures var s := Final(Init(1), labels, rule);
      && OneIn(s, id, status)
      && |s.log| >= 2 && ClaimsRun(s.log[1], id) && s.log[1].worker == "a"
      && forall k | 0 <= k < |s.log| :: !s.log[k].Patched? && !RequeuesRun(s.log[k], id)
  {
    var enqueue := Enqueue(id, PLAIN_RUN);
    var s1 := Do(Init(1), enqueue);
    var claim := ClaimOnly(s1, 0, id, "a", 0, rule);
    var s2 := Final(s1, claim, rule);
    assert OneClaimed(s2, id);
    var on := ReachesStatus(s2, id, status, rule);
    BehaviourConcat(s1, claim, on, rule);
    StepThen(Init(1), enqueue, claim + on, rule);
    labels := [enqueue] + (claim + on);
  }

  /** Any PATCH to queued from another status hands a run out twice: an interleaving
      in which that is the only PATCH and no sweep requeues anything. */
  lemma {:induction false} PatchBreaksExclusivity(id: RunId, from: Status) returns (labels: seq<Label>)
    requires !from.Queued?
    ensures Behaviour(Init(1), labels, Requeuing(from))
    ensures var log := Final(Init(1), labels, Requeuing(from)).log;
      var n := |log|;
      && n >= 4 && ClaimsRun(log[1], id) && ClaimsRun(log[n - 1], id) && log[1].worker != log[n - 1].worker
      && log[n - 2].Patched? && log[n - 2].id == id && log[n - 2].patch == Some(Queued)
      && forall k | 0 <= k < n :: !RequeuesRun(log[k], id) && (log[k].Patched? ==> k == n - 2)
  {
    var rule, patch := Requeuing(from), Patch(id, Some(Queued));
    var first := ClaimedInto(id, from, rule);
    var s := Final(Init(1), first, rule);
    var s' := Do(s, patch);
    var second := ClaimOnly(s', 0, id, "b", 0, rule);
    assert Takes(s, patch, rule) && ([patch] + second)[1..] == second;
    BehaviourConcat(Init(1), first, [patch] + second, rule);
    labels := first + ([patch] + second);
    assert Final(Init(1), labels, rule).log
        == s.log + [Patched(s.clock, id, Some(Queued))] + [ClaimedRuns(s.clock, {id}, "gpu", 600, "b", s.clock, 0)];
  }

  /** Exclusivity over every interleaving, for any limit, exactly when no PATCH puts a
      run back into the queue from another status. */
  lemma {:induction false} ExclusiveExactly(rule: PatchRule)
    ensures (forall labels, m | Behaviour(Init(m), labels, rule) :: Exclusive(Final(Init(m), labels, rule).log))
            <==> NeverQueues(rule)
  {
    if NeverQueues(rule) {
      forall labels, m | Behaviour(Init(m), labels, rule) ensures Exclusive(Final(Init(m), labels, rule).log) {
        NoDoubleClaim(labels, m, rule);
      }
    } else {
      var from :| rule(from, Some(Queued)) && !from.Queued?;
      var labels := PatchBreaksExclusivity(0, from);
      BehaviourWidens(Init(1), labels, Requeuing(from), rule);
      var log := Final(Init(1), labels, rule).log;
      assert ClaimsRun(log[1], 0) && ClaimsRun(log[|log| - 1], 0);
      assert !Exclusive(log);
    }
  }

  lemma {:induction false} ClaimsCount(log: seq<Event>, id: RunId, i: nat, j: nat)
    requires i < j < |log| && ClaimsRun(log[i], id) && ClaimsRun(log[j], id)
    ensures ClaimCount(log, id) >= 2
    decreases |log|
  {
    var n := |log| - 1;
    if j < n { ClaimsCount(log[..n], id, i, j); } else { OneClaimCounts(log[..n], id, i); }
  }

  lemma {:induction false} OneClaimCounts(log: seq<Event>, id: RunId, i: nat)
    requires i < |log| && ClaimsRun(log[i], id)
    ensures ClaimCount(log, id) >= 1
    decreases |log|
  {
    if i < |log| - 1 { OneClaimCounts(log[..|log| - 1], id, i); }
  }

  /** So does the bound on claims: at most max_attempts of them, over every interleaving
      and for every limit, exactly under the same condition. */
  lemma {:induction false} ClaimsBoundedExactly(rule: PatchRule)
    ensures (forall labels, m, id: RunId | m >= 1 && Behaviour(Init(m), labels, rule) ::
               ClaimCount(Final(Init(m), labels, rule).log, id) <= m)
            <==> NeverQueues(rule)
  {
    if NeverQueues(rule) {
      forall labels, m, id: RunId | m >= 1 && Behaviour(Init(m), labels, rule)
        ensures ClaimCount(Final(Init(m), labels, rule).log, id) <= m
      {
        RetriesAreBounded(labels, m, id, rule);
      }
    } else {
      var from :| rule(from, Some(Queued)) && !from.Queued?;
      var labels := PatchBreaksExclusivity(0, from);
      BehaviourWidens(Init(1), labels, Requeuing(from), rule);
      var log := Final(Init(1), labels, rule).log;
      ClaimsCount(log, 0, 1, |log| - 1);
      assert Behaviour(Init(1), labels, rule) && ClaimCount(Final(Init(1), labels, rule).log, 0) > 1;
    }
  }

  /** A PATCH that undoes a completion leaves a claimed run with an unmet dependency. */
  lemma {:induction false} PatchBreaksDependencies(rule: PatchRule, to: Status) returns (labels: seq<Label>)
    requires rule(Completed, Some(to)) && !to.Completed?
    ensures Behaviour(Init(1), labels, rule) && !DependenciesHold(Final(Init(1), labels, rule))
  {
    var done := Enqueue(0, PLAIN_RUN.(status := Completed));
    var waits := Enqueue(1, PLAIN_RUN.(dependsOn := [0]));
    var s1 := Do(Init(1), done);
    var s2 := Do(s1, waits);
    var claim := ClaimOnly(s2, 0, 1, "a", 0, rule);
    var s3 := Final(s2, claim, rule);
    var undo := Patch(0, Some(to));
    var s4 := Do(s3, undo);
    assert Takes(s3, undo, rule) && [undo][1..] == [] && Behaviour(s4, [], rule);
    assert Behaviour(s3, [undo], rule) && Final(s3, [undo], rule) == s4;
    BehaviourConcat(s2, claim, [undo], rule);
    StepThen(s1, waits, claim + [undo], rule);
    StepThen(Init(1), done, [waits] + (claim + [undo]), rule);
    labels := [done] + ([waits] + (claim + [undo]));
    assert ClaimsRun(s4.log[2], 1) && 0 in s4.rows[1].dependsOn && s4.rows[0].status == to;
  }

  /** The dependencies of claimed runs are and stay completed over every interleaving
      exactly when no PATCH undoes a completion. */
  lemma {:induction false} DependenciesHoldExactly(rule: PatchRule)
    ensures (forall labels, m | Behaviour(Init(m), labels, rule) :: DependenciesHold(Final(Init(m), labels, rule)))
            <==> KeepsCompleted(rule)
  {
    if KeepsCompleted(rule) {
      forall labels, m | Behaviour(Init(m), labels, rule) ensures DependenciesHold(Final(Init(m), labels, rule)) {
        ClaimsFollowDependencies(labels, m, rule);
      }
    } else {
      var to :| rule(Completed, Some(to)) && !to.Completed?;
      var labels := PatchBreaksDependencies(rule, to);
    }
  }

  // ----- Promises about single events -----

  /** A run becomes claimed or running only by a claim. */
  predicate StartsByClaim(rows: Table, e: Event) {
    forall id | id in rows && id in Apply(rows, e) && !Leasable(rows[id].status) && Leasable(Apply(rows, e)[id].status) ::
      ClaimsRun(e, id)
  }

  /** A queued or cancelled run moves on only by a claim. */
  predicate LeavesByClaim(rows: Table, e: Event) {
    forall id | id in rows && id in Apply(rows, e) && Waiting(rows[id].status) && !Waiting(Apply(rows, e)[id].status) ::
      ClaimsRun(e, id)
  }

  /** A run goes back along queued, claimed, running, ended only by a sweep's requeue. */
  predicate RisesByRequeue(rows: Table, e: Event) {
    forall id | id in rows && id in Apply(rows, e) && Rank(Apply(rows, e)[id].status) > Rank(rows[id].status) ::
      RequeuesRun(e, id)
  }

  /** A run that has ended is not changed any more. */
  predicate StaysEnded(rows: Table, e: Event) {
    forall id | id in rows && id in Apply(rows, e) && Terminal(rows[id].status) :: Apply(rows, e)[id] == rows[id]
  }

  /** Every event of the log keeps the promise on the table it found. */
  ghost predicate Throughout(log: seq<Event>, maxAttempts: int, rule: PatchRule, promise: (Table, Event) -> bool) {
    forall k | 0 <= k < |log| && Replay(log[..k], maxAttempts, rule).Some? ::
      promise(Replay(log[..k], maxAttempts, rule).value, log[k])
  }

  /** Over every interleaving, for any limit, the promise is kept. */
  ghost predicate Always(rule: PatchRule, promise: (Table, Event) -> bool) {
    forall labels, m | Behaviour(Init(m), labels, rule) :: Throughout(Final(Init(m), labels, rule).log, m, rule, promise)
  }

  lemma {:induction false} AllowedSuffices(rule: PatchRule, promise: (Table, Event) -> bool)
    requires forall rows, e, m | Allowed(rows, e, m, rule) :: promise(rows, e)
    ensures Always(rule, promise)
  {
    forall labels, m | Behaviour(Init(m), labels, rule)
      ensures Throughout(Final(Init(m), labels, rule).log, m, rule, promise)
    {
      EveryInterleavingIsSerial(labels, m, rule);
      var log := Final(Init(m), labels, rule).log;
      forall k | 0 <= k < |log| && Replay(log[..k], m, rule).Some?
        ensures promise(Replay(log[..k], m, rule).value, log[k])
      {
        StepAt(log, k, m, rule);
        assert Allowed(Before(log, k, m, rule), log[k], m, rule);
      }
    }
  }

  function TableIn(status: Status): Table { map[0 := PLAIN_RUN.(status := status)] }

  /** Any PATCH the rule allows does happen: on a run created in its old status. */
  lemma {:induction false} PatchHappens(rule: PatchRule, from: Status, to: Status, promise: (Table, Event) -> bool)
    requires rule(from, Some(to)) && Always(rule, promise)
    ensures promise(TableIn(from), Patched(0, 0, Some(to)))
    ensures 0 in TableIn(from) && TableIn(from)[0].status == from
    ensures Apply(TableIn(from), Patched(0, 0, Some(to))) == TableIn(to)
  {
    var create, patch := Enqueue(0, PLAIN_RUN.(status := from)), Patch(0, Some(to));
    var s1 := Do(Init(1), create);
    var s2 := Do(s1, patch);
    assert Takes(s1, patch, rule) && [create, patch][1..] == [patch] && [patch][1..] == [];
    assert Behaviour(s2, [], rule) && Behaviour(s1, [patch], rule) && Final(s1, [patch], rule) == s2;
    assert Behaviour(Init(1), [create, patch], rule) && Final(Init(1), [create, patch], rule) == s2;
    var log := s2.log;
    assert log == [Enqueued(0, 0, PLAIN_RUN.(status := from)), Patched(0, 0, Some(to))];
    assert log[..1][..0] == [] && log[..1][0] == log[0];
    assert Replay(log[..1], 1, rule) == Some(TableIn(from));
    assert Throughout(log, 1, rule, promise);
  }

  lemma {:induction false} StartsByClaimEvent(rows: Table, e: Event, maxAttempts: int, rule: PatchRule)
    requires Allowed(rows, e, maxAttempts, rule) && NeverRevives(rule)
    ensures StartsByClaim(rows, e)
  {
  }

  lemma {:induction false} StartsByClaimExactly(rule: PatchRule)
    ensures Always(rule, StartsByClaim) <==> NeverRevives(rule)
  {
    if NeverRevives(rule) {
      forall rows, e, m | Allowed(rows, e, m, rule) ensures StartsByClaim(rows, e) { StartsByClaimEvent(rows, e, m, rule); }
      AllowedSuffices(rule, StartsByClaim);
    } else if Always(rule, StartsByClaim) {
      var from, to :| rule(from, Some(to)) && Leasable(to) && !Leasable(from);
      PatchHappens(rule, from, to, StartsByClaim);
    }
  }

  lemma {:induction false} LeavesByClaimEvent(rows: Table, e: Event, maxAttempts: int, rule: PatchRule)
    requires Allowed(rows, e, maxAttempts, rule) && KeepsWaiting(rule)
    ensures LeavesByClaim(rows, e)
  {
  }

  lemma {:induction false} LeavesByClaimExactly(rule: PatchRule)
    ensures Always(rule, LeavesByClaim) <==> KeepsWaiting(rule)
  {
    if KeepsWaiting(rule) {
      forall rows, e, m | Allowed(rows, e, m, rule) ensures LeavesByClaim(rows, e) { LeavesByClaimEvent(rows, e, m, rule); }
      AllowedSuffices(rule, LeavesByClaim);
    } else if Always(rule, LeavesByClaim) {
      var from, to :| rule(from, Some(to)) && Waiting(from) && !Waiting(to);
      PatchHappens(rule, from, to, LeavesByClaim);
    }
  }

  lemma {:induction false} RisesByRequeueEvent(rows: Table, e: Event, maxAttempts: int, rule: PatchRule)
    requires Allowed(rows, e, maxAttempts, rule) && NeverRaises(rule)
    ensures RisesByRequeue(rows, e)
  {
    forall id | id in rows && Rank(Apply(rows, e)[id].status) > Rank(rows[id].status) ensures RequeuesRun(e, id) {
      MeasureFalls(rows, e, id, maxAttempts, rule);
      AttemptsStep(rows, e, id, maxAttempts);
    }
  }

  lemma {:induction false} RisesByRequeueExactly(rule: PatchRule)
    ensures Always(rule, RisesByRequeue) <==> NeverRaises(rule)
  {
    if NeverRaises(rule) {
      forall rows, e, m | Allowed(rows, e, m, rule) ensures RisesByRequeue(rows, e) { RisesByRequeueEvent(rows, e, m, rule); }
      AllowedSuffices(rule, RisesByRequeue);
    } else if Always(rule, RisesByRequeue) {
      var from, to :| rule(from, Some(to)) && Rank(to) > Rank(from);
      PatchHappens(rule, from, to, RisesByRequeue);
    }
  }

  lemma {:induction false} StaysEndedEvent(rows: Table, e: Event, maxAttempts: int, rule: PatchRule)
    requires Allowed(rows, e, maxAttempts, rule) && KeepsEnded(rule)
    ensures StaysEnded(rows, e)
  {
    forall id | id in rows && Terminal(rows[id].status) ensures Apply(rows, e)[id] == rows[id] {
      TerminalIsStable(rows, e, maxAttempts, rule, id);
    }
  }

  lemma {:induction false} StaysEndedExactly(rule: PatchRule)
    ensures Always(rule, StaysEnded) <==> KeepsEnded(rule)
  {
    if KeepsEnded(rule) {
      forall rows, e, m | Allowed(rows, e, m, rule) ensures StaysEnded(rows, e) { StaysEndedEvent(rows, e, m, rule); }
      AllowedSuffices(rule, StaysEnded);
    } else if Always(rule, StaysEnded) {
      var from, to :| rule(from, Some(to)) && Terminal(from) && to != from;
      PatchHappens(rule, from, to, StaysEnded);
    }
  }
}
