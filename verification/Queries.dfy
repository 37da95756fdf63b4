/** The query builders (service/_shared.py, service/experiments.py, peek_queue):
    optional filters become a WHERE clause over numbered parameters. */
module Queries {
  import opened Common
  import opened Sql

  class QueryBuilder {
    var params: seq<Value>

    constructor ()
      ensures params == []
    {
      params := [];
    }

    /** Appends the value and returns its placeholder. */
    method Bind(v: Value) returns (p: Operand)
      modifies this
      ensures params == old(params) + [v]
      ensures p == Param(|params|)
      ensures forall row :: ValueOf(p, row, params) == v
    {
      params := params + [v];
      return Param(|params|);
    }
  }

  /** Python truth of an optional string filter. */
  predicate Given(s: Option<string>) { s.Some? && s.value != "" }

  predicate TextCellIs(row: Row, col: Col, s: string) { row.cell(col) == Text(s) }

  predicate ExperimentFilters(row: Row, programme: Option<string>, status: Option<string>, tags: Option<seq<string>>) {
    && (Given(programme) ==> TextCellIs(row, ProgrammeSlug, programme.value))
    && (Given(status) ==> TextCellIs(row, Status, status.value))
    && (tags.Some? && tags.value != [] ==> exists t :: t in tags.value && t in row.tags)
  }

  predicate NeedsConclusion(row: Row) {
    TextCellIs(row, Status, "completed") && row.cell(Conclusion).Null?
  }

  predicate NeedsNextAction(row: Row) {
    (TextCellIs(row, Status, "planned") || TextCellIs(row, Status, "running")) && row.cell(NextAction).Null?
  }

  datatype ListFilters = ListFilters(
    programme: Option<string>, status: Option<string>, tags: Option<seq<string>>, q: Option<string>,
    needsConclusion: Option<bool>, needsNextAction: Option<bool>)

  predicate NeedsMatches(row: Row, f: ListFilters) {
    && (f.needsConclusion == Some(true) ==> NeedsConclusion(row))
    && (f.needsNextAction == Some(true) ==> NeedsNextAction(row))
  }

  predicate ListMatches(row: Row, f: ListFilters) {
    && ExperimentFilters(row, f.programme, f.status, f.tags)
    && (Given(f.q) ==> row.matches(f.q.value))
    && NeedsMatches(row, f)
  }

  datatype SearchFilters = SearchFilters(
    query: Option<string>, programme: Option<string>, status: Option<string>, tags: Option<seq<string>>,
    configKey: Option<string>, configValue: Option<string>,
    metric: Option<string>, metricOp: Option<MetricOp>, metricValue: Option<real>)

  predicate SearchMatches(row: Row, f: SearchFilters) {
    && (Given(f.query) ==> row.matches(f.query.value))
    && ExperimentFilters(row, f.programme, f.status, f.tags)
    && RunFilters(row, f)
  }

  predicate PeekMatches(row: Row, backend: Option<string>, maxSeconds: Option<int>) {
    && row.ready
    && (Given(backend) ==> var b := row.cell(ReqBackend); b.Null? || b == Text("any") || b == Text(backend.value))
    && (maxSeconds.Some? ==>
          var e := row.cell(EstSeconds); e.Null? || (e.Number? && e.number <= maxSeconds.value))
  }

  /** A prepared statement: the clause list and where LIMIT and OFFSET read from. */
  datatype Query = Query(where_: seq<Cond>, params: seq<Value>, limit: Operand, offset: Operand)

  /** The statement filters by `p` and pages by the caller's limit and offset. */
  ghost predicate Means(query: Query, p: Row -> bool, limit: nat, offset: Option<nat>) {
    && (forall row :: Keeps(query.where_, query.params, row) <==> p(row))
    && (forall row :: ValueOf(query.limit, row, query.params) == Number(limit))
    && (offset.Some? ==> forall row :: ValueOf(query.offset, row, query.params) == Number(offset.value))
  }

  /** What a clause list so far means under the parameters so far. */
  ghost predicate Builds(where_: seq<Cond>, params: seq<Value>, p: Row -> bool) {
    AllBound(where_, |params|) && forall row :: Keeps(where_, params, row) <==> p(row)
  }

  /** A new clause over freshly bound parameters narrows the meaning by itself. */
  lemma {:induction false} BuildsOn(where_: seq<Cond>, params: seq<Value>, p: Row -> bool, c: Cond, more: seq<Value>, q: Row -> bool)
    requires Builds(where_, params, p) && Bound(c, |params| + |more|)
    requires forall row :: q(row) <==> p(row) && Eval(c, row, params + more).True?
    ensures Builds(where_ + [c], params + more, q)
  {
    BindsOn(where_, params, p, more);
    forall row ensures Keeps(where_ + [c], params + more, row) <==> q(row) {
      KeepsAppend(where_, c, params + more, row);
    }
  }

  lemma {:induction false} BoundMore(c: Cond, n: nat, m: nat)
    requires Bound(c, n) && n <= m
    ensures Bound(c, m)
  {
    match c
    case And(l, r) => BoundMore(l, n, m); BoundMore(r, n, m);
    case Or(l, r) => BoundMore(l, n, m); BoundMore(r, n, m);
    case _ =>
  }

  lemma {:induction false} BindsOn(where_: seq<Cond>, params: seq<Value>, p: Row -> bool, more: seq<Value>)
    requires Builds(where_, params, p)
    ensures Builds(where_, params + more, p)
  {
    forall row ensures Keeps(where_, params + more, row) <==> p(row) { KeepsStable(where_, params, more, row); }
    forall i | 0 <= i < |where_| ensures Bound(where_[i], |params| + |more|) {
      BoundMore(where_[i], |params|, |params| + |more|);
    }
  }

  /** The programme/status/tags filters, shared by list and search. */
  method ApplyExperimentFilters(where0: seq<Cond>, q: QueryBuilder, programme: Option<string>, status: Option<string>,
                                tags: Option<seq<string>>, ghost p: Row -> bool)
    returns (where_: seq<Cond>)
    requires Builds(where0, q.params, p)
    modifies q
    ensures Builds(where_, q.params, row => p(row) && ExperimentFilters(row, programme, status, tags))
  {
    where_ := TextFilter(where0, q, ProgrammeSlug, programme, p);
    ghost var p1 := row => p(row) && (Given(programme) ==> TextCellIs(row, ProgrammeSlug, programme.value));
    assert Builds(where_, q.params, p1);
    where_ := TextFilter(where_, q, Status, status, p1);
    ghost var p2 := row => p1(row) && (Given(status) ==> TextCellIs(row, Status, status.value));
    assert Builds(where_, q.params, p2);
    where_ := TagsFilter(where_, q, tags, p2);
  }

  method TextFilter(where0: seq<Cond>, q: QueryBuilder, col: Col, s: Option<string>, ghost p: Row -> bool)
    returns (where_: seq<Cond>)
    requires Builds(where0, q.params, p)
    modifies q
    ensures Builds(where_, q.params, row => p(row) && (Given(s) ==> TextCellIs(row, col, s.value)))
  {
    where_ := where0;
    if s.Some? && s.value != "" {
      ghost var before := q.params;
      var b := q.Bind(Text(s.value));
      BuildsOn(where_, before, p, Equals(Cell(col), b), [Text(s.value)], row => p(row) && TextCellIs(row, col, s.value));
      where_ := where_ + [Equals(Cell(col), b)];
    }
  }

  method TagsFilter(where0: seq<Cond>, q: QueryBuilder, tags: Option<seq<string>>, ghost p: Row -> bool)
    returns (where_: seq<Cond>)
    requires Builds(where0, q.params, p)
    modifies q
    ensures Builds(where_, q.params,
                   row => p(row) && (tags.Some? && tags.value != [] ==> exists t :: t in tags.value && t in row.tags))
  {
    where_ := where0;
    if tags.Some? && tags.value != [] {
      ghost var before := q.params;
      var b := q.Bind(Texts(tags.value));
      BuildsOn(where_, before, p, TagsOverlap(b), [Texts(tags.value)],
               row => p(row) && exists t :: t in tags.value && t in row.tags);
      where_ := where_ + [TagsOverlap(b)];
    }
  }

  /** The two dashboard filters. */
  method NeedsFilters(where0: seq<Cond>, q: QueryBuilder, f: ListFilters, ghost p1: Row -> bool)
    returns (where_: seq<Cond>)
    requires Builds(where0, q.params, p1)
    modifies q
    ensures Builds(where_, q.params, row => p1(row) && NeedsMatches(row, f))
  {
    where_ := where0;
    ghost var p2 := row => p1(row) && (f.needsConclusion == Some(true) ==> NeedsConclusion(row));
    if f.needsConclusion == Some(true) {
      ghost var before := q.params;
      var b := q.Bind(Text("completed"));
      var c := And(Equals(Cell(Status), b), IsNull(Cell(Conclusion)));
      ConclusionClause(c, before, b);
      BuildsOn(where_, before, p1, c, [Text("completed")], p2);
      where_ := where_ + [c];
    }
    assert Builds(where_, q.params, p2);
    ghost var p3 := row => p2(row) && (f.needsNextAction == Some(true) ==> NeedsNextAction(row));
    if f.needsNextAction == Some(true) {
      ghost var before := q.params;
      var planned := q.Bind(Text("planned"));
      var running := q.Bind(Text("running"));
      var c := And(In(Cell(Status), [planned, running]), IsNull(Cell(NextAction)));
      NextActionClause(c, before, planned, running);
      assert before + [Text("planned"), Text("running")] == q.params;
      BuildsOn(where_, before, p2, c, [Text("planned"), Text("running")], p3);
      where_ := where_ + [c];
    }
    assert Builds(where_, q.params, p3);
  }

  /** list_experiments: for every combination of filters the generated statement
      selects exactly the rows the filters describe. */
  method ListQuery(f: ListFilters, limit: nat, offset: nat) returns (query: Query)
    ensures Means(query, row => ListMatches(row, f), limit, Some(offset))
  {
    var q := new QueryBuilder();
    var where_ := [Always];
    where_ := ApplyExperimentFilters(where_, q, f.programme, f.status, f.tags, row => true);
    ghost var p0 := (row: Row) => ExperimentFilters(row, f.programme, f.status, f.tags);
    assert Builds(where_, q.params, p0);
    ghost var p1 := (row: Row) => p0(row) && (Given(f.q) ==> row.matches(f.q.value));
    if f.q.Some? && f.q.value != "" {
      ghost var before := q.params;
      var b := q.Bind(Text(f.q.value));
      BuildsOn(where_, before, p0, Search(b), [Text(f.q.value)], p1);
      where_ := where_ + [Search(b)];
    }
    assert Builds(where_, q.params, p1);
    ghost var p3 := row => p1(row) && NeedsMatches(row, f);
    where_ := NeedsFilters(where_, q, f, p1);
    assert Builds(where_, q.params, p3);
    query := Paged(where_, q, limit, Some(offset), p3);
    assert forall row :: p3(row) <==> ListMatches(row, f);
  }

  lemma {:induction false} ConclusionClause(c: Cond, before: seq<Value>, completed: Operand)
    requires completed == Param(|before| + 1)
    requires c == And(Equals(Cell(Status), completed), IsNull(Cell(Conclusion)))
    ensures Bound(c, |before| + 1)
    ensures forall row :: Eval(c, row, before + [Text("completed")]).True? <==> NeedsConclusion(row)
  {
    assert Bound(c.l, |before| + 1) && Bound(c.r, |before| + 1);
    forall row ensures Eval(c, row, before + [Text("completed")]).True? <==> NeedsConclusion(row) {
      var params := before + [Text("completed")];
      assert Eval(c.l, row, params) == EqualsT(row.cell(Status), Text("completed"));
      assert Eval(c.r, row, params) == FromBool(row.cell(Conclusion).Null?);
    }
  }

  lemma {:induction false} NextActionClause(c: Cond, before: seq<Value>, planned: Operand, running: Operand)
    requires planned == Param(|before| + 1) && running == Param(|before| + 2)
    requires c == And(In(Cell(Status), [planned, running]), IsNull(Cell(NextAction)))
    ensures Bound(c, |before| + 2)
    ensures forall row :: Eval(c, row, before + [Text("planned"), Text("running")]).True? <==> NeedsNextAction(row)
  {
    assert Bound(c.l, |before| + 2) && Bound(c.r, |before| + 2);
    var params := before + [Text("planned"), Text("running")];
    forall row ensures Eval(c, row, params).True? <==> NeedsNextAction(row) {
      var a := row.cell(Status);
      assert [planned, running][1..] == [running] && [running][1..] == [];
      assert InT(a, [running], row, params) == OrT(EqualsT(a, Text("running")), False);
      assert InT(a, [planned, running], row, params) == OrT(EqualsT(a, Text("planned")), InT(a, [running], row, params));
    }
  }

  /** Binds LIMIT and OFFSET last. */
  method Paged(where_: seq<Cond>, q: QueryBuilder, limit: nat, offset: Option<nat>, ghost p: Row -> bool)
    returns (query: Query)
    requires Builds(where_, q.params, p)
    modifies q
    ensures Means(query, p, limit, offset) && old(q.params) <= query.params
  {
    ghost var before := q.params;
    var l := q.Bind(Number(limit));
    BindsOn(where_, before, p, [Number(limit)]);
    if offset.Some? {
      ghost var mid := q.params;
      var o := q.Bind(Number(offset.value));
      BindsOn(where_, mid, p, [Number(offset.value)]);
      return Query(where_, q.params, l, o);
    }
    return Query(where_, q.params, l, Literal(Null));
  }

  predicate ConfigMatches(row: Row, f: SearchFilters) {
    Given(f.configKey) && f.configValue.Some? ==> row.hasConfig(f.configKey.value, f.configValue.value)
  }

  predicate MetricMatches(row: Row, f: SearchFilters) {
    Given(f.metric) && f.metricOp.Some? && f.metricValue.Some? ==>
      row.hasMetric(f.metric.value, f.metricOp.value, f.metricValue.value)
  }

  /** The two filters that look at the experiment's runs and their results. */
  predicate RunFilters(row: Row, f: SearchFilters) { ConfigMatches(row, f) && MetricMatches(row, f) }

  method ApplyRunFilters(where0: seq<Cond>, q: QueryBuilder, f: SearchFilters, ghost p: Row -> bool)
    returns (where_: seq<Cond>)
    requires Builds(where0, q.params, p)
    modifies q
    ensures Builds(where_, q.params, row => p(row) && RunFilters(row, f))
  {
    ghost var p1 := row => p(row) && ConfigMatches(row, f);
    where_ := ConfigFilter(where0, q, f, p);
    where_ := MetricFilter(where_, q, f, p1);
  }

  method ConfigFilter(where0: seq<Cond>, q: QueryBuilder, f: SearchFilters, ghost p: Row -> bool)
    returns (where_: seq<Cond>)
    requires Builds(where0, q.params, p)
    modifies q
    ensures Builds(where_, q.params, row => p(row) && ConfigMatches(row, f))
  {
    where_ := where0;
    if f.configKey.Some? && f.configKey.value != "" && f.configValue.Some? {
      ghost var before := q.params;
      var key := q.Bind(Text(f.configKey.value));
      var value := q.Bind(Text(f.configValue.value));
      ghost var more := [Text(f.configKey.value), Text(f.configValue.value)];
      assert q.params == before + more;
      BuildsOn(where_, before, p, ConfigIs(key, value), more, row => p(row) && ConfigMatches(row, f));
      where_ := where_ + [ConfigIs(key, value)];
    }
  }

  method MetricFilter(where0: seq<Cond>, q: QueryBuilder, f: SearchFilters, ghost p: Row -> bool)
    returns (where_: seq<Cond>)
    requires Builds(where0, q.params, p)
    modifies q
    ensures Builds(where_, q.params, row => p(row) && MetricMatches(row, f))
  {
    where_ := where0;
    if f.metric.Some? && f.metric.value != "" && f.metricOp.Some? && f.metricValue.Some? {
      ghost var before := q.params;
      var name := q.Bind(Text(f.metric.value));
      var value := q.Bind(Real(f.metricValue.value));
      ghost var more := [Text(f.metric.value), Real(f.metricValue.value)];
      assert q.params == before + more;
      BuildsOn(where_, before, p, MetricIs(name, f.metricOp.value, value), more, row => p(row) && MetricMatches(row, f));
      where_ := where_ + [MetricIs(name, f.metricOp.value, value)];
    }
  }

  /** search_experiments, whose rank expression binds the search text a second time. */
  method SearchQuery(f: SearchFilters, limit: nat, offset: nat) returns (query: Query, rank: Option<Operand>)
    ensures Means(query, row => SearchMatches(row, f), limit, Some(offset))
    ensures rank.Some? <==> Given(f.query)
    ensures rank.Some? ==> forall row :: ValueOf(rank.value, row, query.params) == Text(f.query.value)
  {
    var q := new QueryBuilder();
    var where_ := [Always];
    rank := None;
    ghost var p0 := (row: Row) => true;
    ghost var p1 := (row: Row) => p0(row) && (Given(f.query) ==> row.matches(f.query.value));
    assert Builds(where_, q.params, p0);
    if f.query.Some? && f.query.value != "" {
      ghost var before := q.params;
      var b := q.Bind(Text(f.query.value));
      BuildsOn(where_, before, p0, Search(b), [Text(f.query.value)], p1);
      where_ := where_ + [Search(b)];
    }
    assert Builds(where_, q.params, p1);
    where_ := ApplyExperimentFilters(where_, q, f.programme, f.status, f.tags, p1);
    ghost var p2 := row => p1(row) && ExperimentFilters(row, f.programme, f.status, f.tags);
    assert Builds(where_, q.params, p2);
    where_ := ApplyRunFilters(where_, q, f, p2);
    ghost var p4 := row => p2(row) && RunFilters(row, f);
    assert Builds(where_, q.params, p4);
    if f.query.Some? && f.query.value != "" {
      ghost var before := q.params;
      var b := q.Bind(Text(f.query.value));
      rank := Some(b);
      BindsOn(where_, before, p4, [Text(f.query.value)]);
    }
    query := Paged(where_, q, limit, Some(offset), p4);
    assert forall row :: p4(row) <==> SearchMatches(row, f);
  }

  /** peek_queue: the ready clause and two optional filters over nullable columns. */
  method PeekQuery(backend: Option<string>, maxSeconds: Option<int>, limit: nat) returns (query: Query)
    ensures Means(query, row => PeekMatches(row, backend, maxSeconds), limit, None)
  {
    var q := new QueryBuilder();
    var where_ := [ReadyClause];
    ghost var p0 := (row: Row) => row.ready;
    assert Builds(where_, q.params, p0);
    ghost var p1 := (row: Row) => p0(row)
      && (Given(backend) ==> var b := row.cell(ReqBackend); b.Null? || b == Text("any") || b == Text(backend.value));
    if backend.Some? && backend.value != "" {
      ghost var before := q.params;
      var b := q.Bind(Text(backend.value));
      var c := Or(IsNull(Cell(ReqBackend)), In(Cell(ReqBackend), [Literal(Text("any")), b]));
      BackendClause(c, before, b, backend.value);
      BuildsOn(where_, before, p0, c, [Text(backend.value)], p1);
      where_ := where_ + [c];
    }
    assert Builds(where_, q.params, p1);
    ghost var p2 := (row: Row) => p1(row)
      && (maxSeconds.Some? ==> var e := row.cell(EstSeconds); e.Null? || (e.Number? && e.number <= maxSeconds.value));
    if maxSeconds.Some? {
      ghost var before := q.params;
      var b := q.Bind(Number(maxSeconds.value));
      var c := Or(IsNull(Cell(EstSeconds)), AtMost(Cell(EstSeconds), b));
      EstimateClause(c, before, b, maxSeconds.value);
      BuildsOn(where_, before, p1, c, [Number(maxSeconds.value)], p2);
      where_ := where_ + [c];
    }
    assert Builds(where_, q.params, p2);
    query := Paged(where_, q, limit, None, p2);
    assert forall row :: p2(row) <==> PeekMatches(row, backend, maxSeconds);
  }

  lemma {:induction false} BackendClause(c: Cond, before: seq<Value>, b: Operand, backend: string)
    requires b == Param(|before| + 1)
    requires c == Or(IsNull(Cell(ReqBackend)), In(Cell(ReqBackend), [Literal(Text("any")), b]))
    ensures Bound(c, |before| + 1)
    ensures forall row :: Eval(c, row, before + [Text(backend)]).True? <==>
              (var v := row.cell(ReqBackend); v.Null? || v == Text("any") || v == Text(backend))
  {
    assert Bound(c.l, |before| + 1) && Bound(c.r, |before| + 1);
    var params := before + [Text(backend)];
    var any := Literal(Text("any"));
    forall row ensures Eval(c, row, params).True? <==>
              (var v := row.cell(ReqBackend); v.Null? || v == Text("any") || v == Text(backend))
    {
      var v := row.cell(ReqBackend);
      assert [any, b][1..] == [b] && [b][1..] == [];
      assert InT(v, [b], row, params) == OrT(EqualsT(v, Text(backend)), False);
      assert InT(v, [any, b], row, params) == OrT(EqualsT(v, Text("any")), InT(v, [b], row, params));
    }
  }

  lemma {:induction false} EstimateClause(c: Cond, before: seq<Value>, b: Operand, n: int)
    requires b == Param(|before| + 1)
    requires c == Or(IsNull(Cell(EstSeconds)), AtMost(Cell(EstSeconds), b))
    ensures Bound(c, |before| + 1)
    ensures forall row :: Eval(c, row, before + [Number(n)]).True? <==>
              (var e := row.cell(EstSeconds); e.Null? || (e.Number? && e.number <= n))
  {
    assert Bound(c.l, |before| + 1) && Bound(c.r, |before| + 1);
    forall row ensures Eval(c, row, before + [Number(n)]).True? <==>
              (var e := row.cell(EstSeconds); e.Null? || (e.Number? && e.number <= n))
    {
      var params := before + [Number(n)];
      assert Eval(c.l, row, params) == FromBool(row.cell(EstSeconds).Null?);
      assert ValueOf(b, row, params) == Number(n);
    }
  }

  // ----- The hand-numbered queries -----

  predicate IndexMatches(row: Row, programme: Option<string>) {
    Given(programme) ==> TextCellIs(row, ProgrammeSlug, programme.value)
  }

  /** get_index: the count query uses $1, the page query $1, $2 and $3, with one
      argument list feeding both. */
  method IndexQueries(programme: Option<string>, limit: nat, offset: nat) returns (total: Query, page: Query)
    ensures forall row :: Keeps(total.where_, total.params, row) <==> IndexMatches(row, programme)
    ensures Means(page, row => IndexMatches(row, programme), limit, Some(offset))
  {
    var args: seq<Value> := if programme.Some? && programme.value != "" then [Text(programme.value)] else [];
    var totalWhere: seq<Cond> :=
      if programme.Some? && programme.value != "" then [Equals(Cell(ProgrammeSlug), Param(1))] else [];
    var pageWhere: seq<Cond> :=
      if programme.Some? && programme.value != "" then [Equals(Cell(ProgrammeSlug), Param(3))] else [];
    total := Query(totalWhere, args, Literal(Null), Literal(Null));
    page := Query(pageWhere, [Number(limit), Number(offset)] + args, Param(1), Param(2));
  }

  /** get_research_health's two WHERE clauses. */
  const HEALTH_CONCLUSION: Query :=
    Query([And(Equals(Cell(Status), Param(1)), IsNull(Cell(Conclusion)))], [Text("completed")], Literal(Null), Literal(Null))

  const HEALTH_NEXT_ACTION: Query :=
    Query([And(In(Cell(Status), [Param(1), Param(2)]), IsNull(Cell(NextAction)))],
          [Text("planned"), Text("running")], Literal(Null), Literal(Null))

  const NO_FILTERS: ListFilters := ListFilters(None, None, None, None, None, None)

  /** The health counts are the unpaged lengths of the matching list_experiments
      calls, for any statements that mean what those calls mean. */
  lemma {:induction false} HealthCountsMatchLists(table: seq<Row>, conclusions: Query, actions: Query, limit: nat)
    requires limit >= |table|
    requires Means(conclusions, row => ListMatches(row, NO_FILTERS.(needsConclusion := Some(true))), limit, Some(0))
    requires Means(actions, row => ListMatches(row, NO_FILTERS.(needsNextAction := Some(true))), limit, Some(0))
    ensures |Selected(HEALTH_CONCLUSION.where_, HEALTH_CONCLUSION.params, table)|
         == |Page(Selected(conclusions.where_, conclusions.params, table), limit, 0)|
    ensures |Selected(HEALTH_NEXT_ACTION.where_, HEALTH_NEXT_ACTION.params, table)|
         == |Page(Selected(actions.where_, actions.params, table), limit, 0)|
  {
    var byConclusion := (row: Row) => ListMatches(row, NO_FILTERS.(needsConclusion := Some(true)));
    var byAction := (row: Row) => ListMatches(row, NO_FILTERS.(needsNextAction := Some(true)));
    NextActionClause(HEALTH_NEXT_ACTION.where_[0], [], Param(1), Param(2));
    assert [] + [Text("planned"), Text("running")] == HEALTH_NEXT_ACTION.params;
    ConclusionClause(HEALTH_CONCLUSION.where_[0], [], Param(1));
    assert [] + [Text("completed")] == HEALTH_CONCLUSION.params;
    FilterAgrees((row: Row) => Keeps(HEALTH_CONCLUSION.where_, HEALTH_CONCLUSION.params, row), byConclusion, table);
    FilterAgrees((row: Row) => Keeps(HEALTH_NEXT_ACTION.where_, HEALTH_NEXT_ACTION.params, row), byAction, table);
    FilterAgrees((row: Row) => Keeps(conclusions.where_, conclusions.params, row), byConclusion, table);
    FilterAgrees((row: Row) => Keeps(actions.where_, actions.params, row), byAction, table);
    FilterIsShorter(byConclusion, table);
    FilterIsShorter(byAction, table);
  }

  /** get_index's total counts every row its pages are cut from. */
  lemma {:induction false} IndexTotalCountsPages(table: seq<Row>, total: Query, page: Query, programme: Option<string>, limit: nat, offset: nat)
    requires forall row :: Keeps(total.where_, total.params, row) <==> IndexMatches(row, programme)
    requires Means(page, row => IndexMatches(row, programme), limit, Some(offset))
    ensures |Selected(total.where_, total.params, table)| == |Selected(page.where_, page.params, table)|
  {
    var p := (row: Row) => IndexMatches(row, programme);
    FilterAgrees((row: Row) => Keeps(total.where_, total.params, row), p, table);
    FilterAgrees((row: Row) => Keeps(page.where_, page.params, row), p, table);
  }
}
