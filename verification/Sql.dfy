/** The part of SQL the query builders use: conditions over numbered parameters,
    evaluated in three-valued logic. */
module Sql {
  import opened Common

  datatype Truth = True | False | Unknown

  function FromBool(b: bool): Truth { if b then True else False }

  function AndT(a: Truth, b: Truth): Truth {
    if a.False? || b.False? then False else if a.True? && b.True? then True else Unknown
  }

  function OrT(a: Truth, b: Truth): Truth {
    if a.True? || b.True? then True else if a.False? && b.False? then False else Unknown
  }

  datatype Value = Null | Text(text: string) | Number(number: int) | Real(real_: real) | Texts(texts: seq<string>)

  datatype Col = ProgrammeSlug | Status | Conclusion | NextAction | ReqBackend | EstSeconds

  datatype MetricOp = Eq | Ne | Gt | Gte | Lt | Lte

  /** A joined row. Full-text search, the readiness test and the two EXISTS
      subqueries are predicates of the row. */
  datatype Row = Row(
    cell: Col -> Value,
    tags: seq<string>,
    ready: bool,
    matches: string -> bool,
    hasConfig: (string, string) -> bool,
    hasMetric: (string, MetricOp, real) -> bool)

  /** A column, a placeholder $n, or a literal. */
  datatype Operand = Cell(col: Col) | Param(n: nat) | Literal(v: Value)

  datatype Cond =
    | Always
    | ReadyClause
    | Equals(a: Operand, b: Operand)
    | In(a: Operand, bs: seq<Operand>)
    | AtMost(a: Operand, b: Operand)
    | IsNull(a: Operand)
    | TagsOverlap(p: Operand)
    | Search(p: Operand)
    | ConfigIs(key: Operand, value: Operand)
    | MetricIs(name: Operand, op: MetricOp, value: Operand)
    | And(l: Cond, r: Cond)
    | Or(l: Cond, r: Cond)

  function ValueOf(o: Operand, row: Row, params: seq<Value>): Value {
    match o
    case Cell(col) => row.cell(col)
    case Param(n) => if 1 <= n <= |params| then params[n - 1] else Null
    case Literal(v) => v
  }

  function EqualsT(a: Value, b: Value): Truth {
    if a.Null? || b.Null? then Unknown else FromBool(a == b)
  }

  function InT(a: Value, bs: seq<Operand>, row: Row, params: seq<Value>): Truth {
    if bs == [] then False else OrT(EqualsT(a, ValueOf(bs[0], row, params)), InT(a, bs[1..], row, params))
  }

  function Eval(c: Cond, row: Row, params: seq<Value>): Truth {
    match c
    case Always => True
    case ReadyClause => FromBool(row.ready)
    case Equals(a, b) => EqualsT(ValueOf(a, row, params), ValueOf(b, row, params))
    case In(a, bs) => InT(ValueOf(a, row, params), bs, row, params)
    case AtMost(a, b) =>
      var x, y := ValueOf(a, row, params), ValueOf(b, row, params);
      if x.Number? && y.Number? then FromBool(x.number <= y.number) else Unknown
    case IsNull(a) => FromBool(ValueOf(a, row, params).Null?)
    case TagsOverlap(p) =>
      var x := ValueOf(p, row, params);
      if x.Texts? then FromBool(exists t :: t in x.texts && t in row.tags) else Unknown
    case Search(p) =>
      var x := ValueOf(p, row, params);
      if x.Text? then FromBool(row.matches(x.text)) else Unknown
    case ConfigIs(key, value) =>
      var x, y := ValueOf(key, row, params), ValueOf(value, row, params);
      FromBool(x.Text? && y.Text? && row.hasConfig(x.text, y.text))
    case MetricIs(name, op, value) =>
      var x, y := ValueOf(name, row, params), ValueOf(value, row, params);
      FromBool(x.Text? && y.Real? && row.hasMetric(x.text, op, y.real_))
    case And(l, r) => AndT(Eval(l, row, params), Eval(r, row, params))
    case Or(l, r) => OrT(Eval(l, row, params), Eval(r, row, params))
  }

  /** " AND ".join(where) */
  function Joined(where_: seq<Cond>): Cond {
    if where_ == [] then Always
    else if |where_| == 1 then where_[0]
    else And(Joined(where_[..|where_| - 1]), where_[|where_| - 1])
  }

  /** WHERE keeps a row only when the clause is true of it, not merely unknown. */
  predicate Keeps(where_: seq<Cond>, params: seq<Value>, row: Row) {
    Eval(Joined(where_), row, params).True?
  }

  // ----- Placeholders -----

  predicate BoundOperand(o: Operand, n: nat) { o.Param? ==> 1 <= o.n <= n }

  /** Every placeholder of `c` is one of $1..$n. */
  predicate Bound(c: Cond, n: nat) {
    match c
    case Always => true
    case ReadyClause => true
    case Equals(a, b) => BoundOperand(a, n) && BoundOperand(b, n)
    case In(a, bs) => BoundOperand(a, n) && forall b | b in bs :: BoundOperand(b, n)
    case AtMost(a, b) => BoundOperand(a, n) && BoundOperand(b, n)
    case IsNull(a) => BoundOperand(a, n)
    case TagsOverlap(p) => BoundOperand(p, n)
    case Search(p) => BoundOperand(p, n)
    case ConfigIs(key, value) => BoundOperand(key, n) && BoundOperand(value, n)
    case MetricIs(name, _, value) => BoundOperand(name, n) && BoundOperand(value, n)
    case And(l, r) => Bound(l, n) && Bound(r, n)
    case Or(l, r) => Bound(l, n) && Bound(r, n)
  }

  predicate AllBound(where_: seq<Cond>, n: nat) {
    forall i | 0 <= i < |where_| :: Bound(where_[i], n)
  }

  lemma {:induction false} InStable(a: Value, bs: seq<Operand>, row: Row, params: seq<Value>, more: seq<Value>)
    requires forall b | b in bs :: BoundOperand(b, |params|)
    ensures InT(a, bs, row, params + more) == InT(a, bs, row, params)
  {
    if bs != [] {
      assert BoundOperand(bs[0], |params|);
      InStable(a, bs[1..], row, params, more);
    }
  }

  /** Parameters bound later do not disturb what a clause already means. */
  lemma {:induction false} EvalStable(c: Cond, row: Row, params: seq<Value>, more: seq<Value>)
    requires Bound(c, |params|)
    ensures Eval(c, row, params + more) == Eval(c, row, params)
  {
    match c
    case In(a, bs) => InStable(ValueOf(a, row, params), bs, row, params, more);
    case And(l, r) =>
      EvalStable(l, row, params, more);
      EvalStable(r, row, params, more);
    case Or(l, r) =>
      EvalStable(l, row, params, more);
      EvalStable(r, row, params, more);
    case _ =>
  }

  lemma {:induction false} JoinedBound(where_: seq<Cond>, n: nat)
    requires AllBound(where_, n)
    ensures Bound(Joined(where_), n)
    decreases |where_|
  {
    if |where_| > 1 { JoinedBound(where_[..|where_| - 1], n); }
  }

  lemma {:induction false} KeepsStable(where_: seq<Cond>, params: seq<Value>, more: seq<Value>, row: Row)
    requires AllBound(where_, |params|)
    ensures Keeps(where_, params + more, row) <==> Keeps(where_, params, row)
  {
    JoinedBound(where_, |params|);
    EvalStable(Joined(where_), row, params, more);
  }

  /** Appending a clause narrows the result by exactly that clause. */
  lemma {:induction false} KeepsAppend(where_: seq<Cond>, c: Cond, params: seq<Value>, row: Row)
    ensures Keeps(where_ + [c], params, row) <==> Keeps(where_, params, row) && Eval(c, row, params).True?
  {
    assert (where_ + [c])[..|where_|] == where_;
  }

  // ----- SELECT -----

  function Selected(where_: seq<Cond>, params: seq<Value>, table: seq<Row>): seq<Row> {
    Filter((row: Row) => Keeps(where_, params, row), table)
  }

  /** OFFSET then LIMIT on an ordered result. */
  function Page(rows: seq<Row>, limit: nat, offset: nat): (page: seq<Row>)
    ensures |page| <= limit && |page| <= |rows|
    ensures |page| < limit ==> offset + |page| >= |rows|
    ensures forall i | 0 <= i < |page| :: offset + i < |rows| && page[i] == rows[offset + i]
  {
    var rest := if offset < |rows| then rows[offset..] else [];
    if limit < |rest| then rest[..limit] else rest
  }
}
