/** Results and their corrections. */
module Results {
  // service/results.py, and the comparison that reads them (compare_runs in service/runs.py).

  import opened Common

  type RunId = nat
  type ResultId = nat

  /** A row of the `result` table; its serial id is its position. `payload` stands
      for value, value_json and verdict. */
  datatype Row = Row(run: RunId, name: string, createdAt: int, payload: string, supersededBy: Option<ResultId>)

  type Rows = seq<Row>

  datatype Submission = Submission(run: RunId, name: string, createdAt: int, payload: string, supersedes: Option<ResultId>)

  function NewRow(d: Submission): Row {
    Row(d.run, d.name, d.createdAt, d.payload, None)
  }

  predicate CanMark(rows: Rows, id: ResultId, by': ResultId) {
    id != by' && by' < |rows| && id < |rows|
  }

  function Marked(rows: Rows, id: ResultId, by': ResultId): Rows
    requires id < |rows|
  {
    rows[id := rows[id].(supersededBy := Some(by'))]
  }

  /** submit_result on an existing run: the row is inserted first, so it stays
      even when linking it to `supersedes` then fails. */
  function Submitted(rows: Rows, d: Submission): Rows {
    var inserted := rows + [NewRow(d)];
    if d.supersedes.Some? && CanMark(inserted, d.supersedes.value, |rows|)
    then Marked(inserted, d.supersedes.value, |rows|) else inserted
  }

  class ResultTable {
    var rows: Rows
    var runs: set<RunId>

    constructor (runs: set<RunId>)
      ensures rows == [] && this.runs == runs
    {
      rows, this.runs := [], runs;
    }

    method MarkResultSuperseded(id: ResultId, by': ResultId) returns (res: Result<Row, ServiceError>)
      modifies this`rows
      ensures res == Err(Invalid) <==> id == by'
      ensures res == Err(NotFound) <==> id != by' && (by' >= |old(rows)| || id >= |old(rows)|)
      ensures res.Ok? <==> CanMark(old(rows), id, by')
      ensures res.Err? ==> rows == old(rows)
      ensures res.Ok? ==> rows == old(rows)[id := old(rows)[id].(supersededBy := Some(by'))] && res.value == rows[id]
      ensures res.Ok? ==> rows == Marked(old(rows), id, by')
    {
      if id == by' { return Err(Invalid); }
      if by' >= |rows| { return Err(NotFound); }
      if id >= |rows| { return Err(NotFound); }
      rows := rows[id := rows[id].(supersededBy := Some(by'))];
      return Ok(rows[id]);
    }

    method SubmitResult(d: Submission) returns (res: Result<ResultId, ServiceError>)
      modifies this`rows
      ensures d.run !in runs ==> res == Err(NotFound) && rows == old(rows)
      ensures d.run in runs ==>
        && |rows| == |old(rows)| + 1
        && rows[|old(rows)|] == Row(d.run, d.name, d.createdAt, d.payload, None)
        && forall i | 0 <= i < |old(rows)| ::
             rows[i] == if d.supersedes == Some(i) then old(rows)[i].(supersededBy := Some(|old(rows)|)) else old(rows)[i]
      ensures d.run in runs ==> rows == Submitted(old(rows), d)
      ensures res.Ok? <==> d.run in runs && (d.supersedes.None? || d.supersedes.value < |old(rows)|)
      ensures res == Err(Invalid) <==> d.run in runs && d.supersedes == Some(|old(rows)|)
      ensures res.Err? ==> res.error == Invalid || res.error == NotFound
      ensures res.Ok? ==> res.value == |old(rows)|
    {
      if d.run !in runs { return Err(NotFound); }
      var id := |rows|;
      rows := rows + [NewRow(d)];
      if d.supersedes.Some? {
        var marked := MarkResultSuperseded(d.supersedes.value, id);
        if marked.Err? { return Err(marked.error); }
      }
      return Ok(id);
    }
  }

  // ----- Correction chains -----

  /** Every correction is a later row. */
  predicate Forward(rows: Rows) {
    forall i | 0 <= i < |rows| && rows[i].supersededBy.Some? :: i < rows[i].supersededBy.value < |rows|
  }

  function History(ds: seq<Submission>): Rows {
    if ds == [] then [] else Submitted(History(ds[..|ds| - 1]), ds[|ds| - 1])
  }

  /** In a history that links only through submit_result, superseded_by always
      exceeds the row's own id. */
  lemma {:induction false} SubmissionsLinkForward(ds: seq<Submission>)
    ensures Forward(History(ds)) && |History(ds)| == |ds|
    decreases |ds|
  {
    if ds != [] { SubmissionsLinkForward(ds[..|ds| - 1]); }
  }

  /** The standalone form keeps links forward exactly when the correction is newer. */
  lemma {:induction false} MarkKeepsForward(rows: Rows, id: ResultId, by': ResultId)
    requires Forward(rows) && CanMark(rows, id, by')
    ensures Forward(Marked(rows, id, by')) <==> id < by'
  {
    var rows' := Marked(rows, id, by');
    if Forward(rows') { assert rows'[id].supersededBy == Some(by'); }
  }

  /** Follows corrections to the current result; forward links make it end. */
  function Current(rows: Rows, id: ResultId): (c: ResultId)
    requires Forward(rows) && id < |rows|
    ensures id <= c < |rows| && rows[c].supersededBy.None?
    decreases |rows| - id
  {
    if rows[id].supersededBy.None? then id else Current(rows, rows[id].supersededBy.value)
  }

  /** Links never leave the run and metric name they started in. */
  predicate Confined(rows: Rows) {
    forall i | 0 <= i < |rows| && rows[i].supersededBy.Some? && rows[i].supersededBy.value < |rows| ::
      var j := rows[i].supersededBy.value; rows[j].run == rows[i].run && rows[j].name == rows[i].name
  }

  /** Each submission corrects, if anything, a result of its own run and name. */
  predicate Corrects(ds: seq<Submission>) {
    forall k | 0 <= k < |ds| && ds[k].supersedes.Some? && ds[k].supersedes.value < k ::
      var j := ds[k].supersedes.value; ds[j].run == ds[k].run && ds[j].name == ds[k].name
  }

  /** Row `k` carries what submission `k` said. */
  predicate Records(rows: Rows, ds: seq<Submission>) {
    && |rows| == |ds|
    && forall k | 0 <= k < |ds| :: rows[k].run == ds[k].run && rows[k].name == ds[k].name && rows[k].createdAt == ds[k].createdAt
  }

  lemma {:induction false} HistoryRecords(ds: seq<Submission>)
    ensures Records(History(ds), ds)
    decreases |ds|
  {
    if ds != [] { HistoryRecords(ds[..|ds| - 1]); }
  }

  lemma {:induction false} SubmissionStaysConfined(rows: Rows, d: Submission)
    requires Confined(rows) && Forward(rows)
    requires d.supersedes.Some? && d.supersedes.value < |rows| ==>
               rows[d.supersedes.value].run == d.run && rows[d.supersedes.value].name == d.name
    ensures Confined(Submitted(rows, d))
  {
    var inserted := rows + [NewRow(d)];
    assert forall i | 0 <= i < |rows| :: inserted[i] == rows[i];
    assert Confined(inserted);
  }

  lemma {:induction false} CorrectionsStayConfined(ds: seq<Submission>)
    requires Corrects(ds)
    ensures Confined(History(ds))
    decreases |ds|
  {
    if ds != [] {
      var n := |ds| - 1;
      CorrectsPrefix(ds);
      CorrectionsStayConfined(ds[..n]);
      HistoryRecords(ds[..n]);
      SubmissionsLinkForward(ds[..n]);
      SubmissionStaysConfined(History(ds[..n]), ds[n]);
    }
  }

  lemma {:induction false} CorrectsPrefix(ds: seq<Submission>)
    requires Corrects(ds) && ds != []
    ensures Corrects(ds[..|ds| - 1])
  {
    var init := ds[..|ds| - 1];
    assert forall k | 0 <= k < |init| :: init[k] == ds[k];
  }

  // ----- Chains under free use of mark_result_superseded -----

  /** The foreign key of superseded_by. */
  predicate Linked(rows: Rows) {
    forall i | 0 <= i < |rows| && rows[i].supersededBy.Some? :: rows[i].supersededBy.value < |rows|
  }

  /** The row `n` corrections after `i`, or None when the chain ends before that. */
  function Follow(rows: Rows, i: ResultId, n: nat): Option<ResultId>
    decreases n
  {
    if n == 0 then Some(i)
    else if i < |rows| && rows[i].supersededBy.Some? then Follow(rows, rows[i].supersededBy.value, n - 1)
    else None
  }

  ghost predicate Ends(rows: Rows, i: ResultId) { exists n: nat :: Follow(rows, i, n).None? }

  /** Every correction chain comes to an end. */
  ghost predicate Acyclic(rows: Rows) { forall i: ResultId | i < |rows| :: Ends(rows, i) }

  /** `j` is on the correction chain of `i`. */
  ghost predicate Leads(rows: Rows, i: ResultId, j: ResultId) { exists n: nat :: Follow(rows, i, n) == Some(j) }

  lemma {:induction false} FollowAdds(rows: Rows, i: ResultId, n: nat, m: nat)
    ensures Follow(rows, i, n + m) ==
            if Follow(rows, i, n).Some? then Follow(rows, Follow(rows, i, n).value, m) else None
    decreases n
  {
    if n > 0 && i < |rows| && rows[i].supersededBy.Some? { FollowAdds(rows, rows[i].supersededBy.value, n - 1, m); }
  }

  /** A chain that avoids the marked row is not disturbed by the mark. */
  lemma {:induction false} ChainUndisturbed(rows: Rows, id: ResultId, by': ResultId, i: ResultId, n: nat)
    requires id < |rows| && Linked(rows) && !Leads(rows, i, id) && Follow(rows, i, n).None?
    ensures Follow(Marked(rows, id, by'), i, n).None?
    decreases n
  {
    assert Follow(rows, i, 0) == Some(i);
    if n > 0 && i < |rows| && rows[i].supersededBy.Some? {
      var j := rows[i].supersededBy.value;
      forall k: nat ensures Follow(rows, j, k) == Follow(rows, i, k + 1) {}
      ChainUndisturbed(rows, id, by', j, n - 1);
    }
  }

  /** When the correction's own chain ends, every chain that ended still does. */
  lemma {:induction false} ChainStillEnds(rows: Rows, id: ResultId, by': ResultId, i: ResultId, n: nat)
    requires id < |rows| && Follow(rows, i, n).None? && Ends(Marked(rows, id, by'), by')
    ensures Ends(Marked(rows, id, by'), i)
    decreases n
  {
    var rows' := Marked(rows, id, by');
    var next: ResultId := by';
    if i != id && i < |rows| && rows[i].supersededBy.Some? {
      next := rows[i].supersededBy.value;
      ChainStillEnds(rows, id, by', next, n - 1);
    }
    if i == id || (i < |rows| && rows[i].supersededBy.Some?) {
      var m: nat :| Follow(rows', next, m).None?;
      assert Follow(rows', i, m + 1).None?;
    } else {
      assert Follow(rows', i, 1).None?;
    }
  }

  /** The marked row is still on the chain of whatever led to it. */
  lemma {:induction false} StillLeads(rows: Rows, id: ResultId, by': ResultId, i: ResultId, n: nat)
    requires id < |rows| && Follow(rows, i, n) == Some(id)
    ensures Leads(Marked(rows, id, by'), i, id)
    decreases n
  {
    var rows' := Marked(rows, id, by');
    if i == id {
      assert Follow(rows', i, 0) == Some(id);
    } else {
      var j := rows[i].supersededBy.value;
      StillLeads(rows, id, by', j, n - 1);
      var k: nat :| Follow(rows', j, k) == Some(id);
      assert Follow(rows', i, k + 1) == Some(id);
    }
  }

  /** A row that comes back to itself has a chain without end. */
  lemma {:induction false} LoopNeverEnds(rows: Rows, id: ResultId, length: nat, m: nat)
    requires length > 0 && Follow(rows, id, length) == Some(id)
    ensures Follow(rows, id, m).Some?
  {
    if m <= length {
      FollowAdds(rows, id, m, length - m);
    } else {
      FollowAdds(rows, id, length, m - length);
      LoopNeverEnds(rows, id, length, m - length);
    }
  }

  /** The standalone link keeps every chain finite if and only if the corrected
      result is not already on the correction's own chain. */
  lemma {:induction false} MarkKeepsAcyclic(rows: Rows, id: ResultId, by': ResultId)
    requires Linked(rows) && Acyclic(rows) && CanMark(rows, id, by')
    ensures Linked(Marked(rows, id, by'))
    ensures Acyclic(Marked(rows, id, by')) <==> !Leads(rows, by', id)
  {
    var rows' := Marked(rows, id, by');
    if Leads(rows, by', id) {
      var n: nat :| Follow(rows, by', n) == Some(id);
      StillLeads(rows, id, by', by', n);
      var k: nat :| Follow(rows', by', k) == Some(id);
      assert Follow(rows', id, k + 1) == Some(id);
      forall m: nat ensures Follow(rows', id, m).Some? { LoopNeverEnds(rows', id, k + 1, m); }
      assert !Ends(rows', id);
    } else {
      assert Ends(rows, by');
      var n: nat :| Follow(rows, by', n).None?;
      ChainUndisturbed(rows, id, by', by', n);
      assert Ends(rows', by');
      forall i: ResultId | i < |rows'| ensures Ends(rows', i) {
        assert Ends(rows, i);
        var m: nat :| Follow(rows, i, m).None?;
        ChainStillEnds(rows, id, by', i, m);
      }
    }
  }

  /** A new row disturbs no chain, and its own is empty; so a submission never
      closes a loop. */
  lemma {:induction false} SubmissionKeepsAcyclic(rows: Rows, d: Submission)
    requires Linked(rows) && Acyclic(rows)
    ensures Linked(Submitted(rows, d)) && Acyclic(Submitted(rows, d))
  {
    var inserted := rows + [NewRow(d)];
    assert Follow(inserted, |rows|, 1).None?;
    forall i: ResultId | i < |rows| ensures Ends(inserted, i) {
      assert Ends(rows, i);
      var n: nat :| Follow(rows, i, n).None?;
      InsertKeepsChain(rows, NewRow(d), i, n);
    }
    assert Acyclic(inserted);
    if d.supersedes.Some? && CanMark(inserted, d.supersedes.value, |rows|) {
      forall n: nat ensures Follow(inserted, |rows|, n) != Some(d.supersedes.value) {}
      MarkKeepsAcyclic(inserted, d.supersedes.value, |rows|);
    }
  }

  lemma {:induction false} InsertKeepsChain(rows: Rows, row: Row, i: ResultId, n: nat)
    requires Linked(rows) && i < |rows|
    ensures Follow(rows + [row], i, n) == Follow(rows, i, n)
    decreases n
  {
    if n > 0 && rows[i].supersededBy.Some? { InsertKeepsChain(rows, row, rows[i].supersededBy.value, n - 1); }
  }

  datatype Call = Submit(d: Submission) | Mark(id: ResultId, by': ResultId)

  function Called(rows: Rows, call: Call): Rows {
    match call
    case Submit(d) => Submitted(rows, d)
    case Mark(id, by') => if CanMark(rows, id, by') then Marked(rows, id, by') else rows
  }

  function AfterCalls(calls: seq<Call>): Rows {
    if calls == [] then [] else Called(AfterCalls(calls[..|calls| - 1]), calls[|calls| - 1])
  }

  /** Each effective standalone link corrects a result outside its correction's chain. */
  ghost predicate Careful(calls: seq<Call>) {
    forall k | 0 <= k < |calls| && calls[k].Mark? ::
      var rows := AfterCalls(calls[..k]);
      CanMark(rows, calls[k].id, calls[k].by') ==> !Leads(rows, calls[k].by', calls[k].id)
  }

  /** Every sequential history of both calls keeps all chains finite as long as the
      standalone calls are careful. */
  lemma {:induction false} CarefulHistoriesEnd(calls: seq<Call>)
    requires Careful(calls)
    ensures Linked(AfterCalls(calls)) && Acyclic(AfterCalls(calls))
    decreases |calls|
  {
    if calls != [] {
      var n := |calls| - 1;
      forall k | 0 <= k < n ensures calls[..n][..k] == calls[..k] {}
      assert Careful(calls[..n]);
      CarefulHistoriesEnd(calls[..n]);
      var rows := AfterCalls(calls[..n]);
      match calls[n]
      case Submit(d) => SubmissionKeepsAcyclic(rows, d);
      case Mark(id, by') => if CanMark(rows, id, by') { MarkKeepsAcyclic(rows, id, by'); }
    }
  }

  // ----- Comparing runs -----

  predicate Candidate(rows: Rows, i: int, run: RunId, metric: string) {
    0 <= i < |rows| && rows[i].run == run && rows[i].name == metric && rows[i].supersededBy.None?
  }

  /** The LEFT JOIN row DISTINCT ON keeps: the newest current result of the metric,
      the later row on equal times, or None when the join found nothing. */
  function Newest(rows: Rows, run: RunId, metric: string, n: nat): Option<ResultId>
    requires n <= |rows|
  {
    if n == 0 then None else
      var best := Newest(rows, run, metric, n - 1);
      if Candidate(rows, n - 1, run, metric) && (best.Some? && best.value < |rows| ==> rows[best.value].createdAt <= rows[n - 1].createdAt)
      then Some(n - 1) else best
  }

  lemma {:induction false} NewestIsNewest(rows: Rows, run: RunId, metric: string, n: nat)
    requires n <= |rows|
    ensures var best := Newest(rows, run, metric, n);
      && (best.Some? <==> exists i :: i < n && Candidate(rows, i, run, metric))
      && (best.Some? ==> best.value < n && Candidate(rows, best.value, run, metric))
      && (best.Some? ==> forall i | i < n && Candidate(rows, i, run, metric) :: rows[i].createdAt <= rows[best.value].createdAt)
  {
    if n > 0 { NewestIsNewest(rows, run, metric, n - 1); }
  }

  function Least(ids: set<RunId>): (m: RunId)
    requires ids != {}
    ensures m in ids && forall k | k in ids :: m <= k
  {
    LeastExists((a: RunId, b: RunId) => a <= b, ids);
    var m :| m in ids && forall k | k in ids :: m <= k;
    m
  }

  function Ascending(ids: set<RunId>): (r: seq<RunId>)
    ensures forall k :: k in r <==> k in ids
    ensures forall i, j | 0 <= i < j < |r| :: r[i] < r[j]
  {
    if ids == {} then [] else
      var m := Least(ids);
      var rest := Ascending(ids - {m});
      assert forall k :: k in [m] + rest <==> k in ids;
      [m] + rest
  }

  datatype Comparison = Comparison(run: RunId, result: Option<ResultId>) {
    predicate Found() { result.Some? }
  }

  /** One row per existing requested run, ordered by run id. */
  function CompareRuns(runs: set<RunId>, rows: Rows, requested: seq<RunId>, metric: string): seq<Comparison> {
    var ids := Ascending(set r | r in requested && r in runs);
    seq(|ids|, i requires 0 <= i < |ids| => Comparison(ids[i], Newest(rows, ids[i], metric, |rows|)))
  }

  /** Exactly one row for each distinct requested run that exists, whatever the
      rows and links look like; `found` says whether a current result exists, and
      the one returned is the newest current one. */
  lemma {:induction false} CompareRowsAreComplete(runs: set<RunId>, rows: Rows, requested: seq<RunId>, metric: string)
    ensures var out := CompareRuns(runs, rows, requested, metric);
      && (forall i, j | 0 <= i < j < |out| :: out[i].run < out[j].run)
      && (forall r :: r in requested && r in runs <==> exists i :: 0 <= i < |out| && out[i].run == r)
      && (forall c | c in out :: c.Found() <==> exists i :: Candidate(rows, i, c.run, metric))
      && (forall c | c in out && c.Found() :: Candidate(rows, c.result.value, c.run, metric))
      && (forall c, i | c in out && c.Found() && Candidate(rows, i, c.run, metric) ::
            rows[i].createdAt <= rows[c.result.value].createdAt)
  {
    var ids := Ascending(set r | r in requested && r in runs);
    var out := CompareRuns(runs, rows, requested, metric);
    forall r | r in requested && r in runs ensures exists i :: 0 <= i < |out| && out[i].run == r {
      assert r in ids;
      var i :| 0 <= i < |ids| && ids[i] == r;
      assert out[i].run == r;
    }
    forall i | 0 <= i < |out| ensures out[i].run in requested && out[i].run in runs {
      assert ids[i] in ids;
    }
    forall c | c in out
      ensures c.Found() <==> exists i :: Candidate(rows, i, c.run, metric)
      ensures c.Found() ==> Candidate(rows, c.result.value, c.run, metric)
      ensures c.Found() ==> forall i | Candidate(rows, i, c.run, metric) :: rows[i].createdAt <= rows[c.result.value].createdAt
    {
      NewestIsNewest(rows, c.run, metric, |rows|);
    }
  }

  /** A chain that ends, ends at a current result of the same run and metric. */
  lemma {:induction false} EndOfChain(rows: Rows, i: ResultId, n: nat) returns (c: ResultId)
    requires Linked(rows) && Confined(rows) && i < |rows| && Follow(rows, i, n).None?
    ensures Candidate(rows, c, rows[i].run, rows[i].name)
    decreases n
  {
    if rows[i].supersededBy.None? { return i; }
    c := EndOfChain(rows, rows[i].supersededBy.value, n - 1);
  }

  /** When links stay within one run and metric, `found` is true exactly when some
      result of that name has a correction chain that ends. */
  lemma {:induction false} FoundMeansSomeChainEnds(rows: Rows, runs: set<RunId>, requested: seq<RunId>, metric: string)
    requires Linked(rows) && Confined(rows)
    ensures forall c | c in CompareRuns(runs, rows, requested, metric) ::
              c.Found() <==> exists i :: 0 <= i < |rows| && rows[i].run == c.run && rows[i].name == metric && Ends(rows, i)
  {
    CompareRowsAreComplete(runs, rows, requested, metric);
    forall c | c in CompareRuns(runs, rows, requested, metric)
      ensures c.Found() <==> exists i :: 0 <= i < |rows| && rows[i].run == c.run && rows[i].name == metric && Ends(rows, i)
    {
      if i :| 0 <= i < |rows| && rows[i].run == c.run && rows[i].name == metric && Ends(rows, i) {
        var n: nat :| Follow(rows, i, n).None?;
        var last := EndOfChain(rows, i, n);
      }
      if c.Found() { assert Follow(rows, c.result.value, 1).None?; }
    }
  }

  lemma {:induction false} ForwardIsAcyclic(rows: Rows, id: ResultId)
    requires Forward(rows) && id < |rows|
    ensures Ends(rows, id)
    decreases |rows| - id
  {
    if rows[id].supersededBy.None? {
      assert Follow(rows, id, 1).None?;
    } else {
      var j := rows[id].supersededBy.value;
      ForwardIsAcyclic(rows, j);
      var n: nat :| Follow(rows, j, n).None?;
      assert Follow(rows, id, n + 1).None?;
    }
  }

  /** In histories that link only through submit_result, within one run and metric,
      `found` is true exactly when the run has any result of that name at all,
      superseded or not. */
  lemma {:induction false} FoundMeansAnyResult(ds: seq<Submission>, runs: set<RunId>, requested: seq<RunId>, metric: string)
    requires Corrects(ds)
    ensures var rows := History(ds);
      forall c | c in CompareRuns(runs, rows, requested, metric) ::
        c.Found() <==> exists i :: 0 <= i < |rows| && rows[i].run == c.run && rows[i].name == metric
  {
    var rows := History(ds);
    SubmissionsLinkForward(ds);
    CorrectionsStayConfined(ds);
    FoundMeansSomeChainEnds(rows, runs, requested, metric);
    forall i: ResultId | i < |rows| ensures Ends(rows, i) { ForwardIsAcyclic(rows, i); }
  }

  /** Any two results can be marked as correcting each other, and then both chains
      run for ever; when they were the run's only current results of the metric, the
      comparison reports the run as having none. */
  lemma {:induction false} MutualMarksHideResults(rows: Rows, a: ResultId, b: ResultId, runs: set<RunId>,
                                                  requested: seq<RunId>, run: RunId, metric: string)
    requires a < |rows| && b < |rows| && a != b
    ensures CanMark(rows, a, b) && CanMark(Marked(rows, a, b), b, a)
    ensures var marked := Marked(Marked(rows, a, b), b, a);
      && !Ends(marked, a) && !Ends(marked, b)
      && ((forall i | Candidate(rows, i, run, metric) :: i == a || i == b) ==>
            forall c | c in CompareRuns(runs, marked, requested, metric) && c.run == run :: !c.Found())
  {
    var marked := Marked(Marked(rows, a, b), b, a);
    assert marked[a].supersededBy == Some(b) && marked[b].supersededBy == Some(a);
    assert Follow(marked, a, 0) == Some(a) && Follow(marked, b, 0) == Some(b);
    assert Follow(marked, a, 1) == Some(b) && Follow(marked, b, 1) == Some(a);
    FollowAdds(marked, a, 1, 1);
    FollowAdds(marked, b, 1, 1);
    forall m: nat ensures Follow(marked, a, m).Some? && Follow(marked, b, m).Some? {
      LoopNeverEnds(marked, a, 2, m);
      LoopNeverEnds(marked, b, 2, m);
    }
    if forall i | Candidate(rows, i, run, metric) :: i == a || i == b {
      CompareRowsAreComplete(runs, marked, requested, metric);
      forall i ensures !Candidate(marked, i, run, metric) {
        assert i != a && i != b && 0 <= i < |rows| ==> marked[i] == rows[i];
        assert Candidate(marked, i, run, metric) ==> Candidate(rows, i, run, metric);
      }
    }
  }
}
