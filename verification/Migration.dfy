/** Migration 002: serial ids become strings. */
module Migration {
  // migrations/002_string_ids.sql: experiment and run ids move from serial numbers to
  // sortable strings, and everything that refers to them follows.

  import opened Common
  import opened Decimals
  import opened Refs

  datatype Status = Queued | Completed | Other

  datatype Experiment = Experiment(createdAt: int, slug: string)

  /** A run row, keyed by ids of type K. */
  datatype Run<K> = Run(experiment: K, createdAt: int, dependsOn: seq<K>, status: Status)

  /** A writeup, result or artifact row, by the id of the row it belongs to. */
  datatype Child<K> = Child(parent: K, body: string)

  // ----- The id maps -----

  /** Row order of row_number() OVER (ORDER BY created_at, id). */
  predicate Earlier(created: map<nat, int>, a: nat, b: nat)
    requires a in created && b in created
  {
    created[a] < created[b] || (created[a] == created[b] && a < b)
  }

  function Predecessors(created: map<nat, int>, id: nat): set<nat>
    requires id in created
  {
    set k | k in created && Earlier(created, k, id)
  }

  function RowNumber(created: map<nat, int>, id: nat): nat
    requires id in created
  {
    1 + |Predecessors(created, id)|
  }

  /** lpad(s, 5, '0'), which also cuts longer text down to five characters. */
  function LPad(s: string, width: nat): string {
    if |s| > width then s[..width] else ZeroPad(s, width)
  }

  function NewId(head: string, n: nat): string {
    (head + "-") + LPad(Decimal(n), ID_SEQUENCE_PAD_WIDTH)
  }

  /** The SQL text of a new id, from created_at and the row number. */
  type IdText = (int, nat) -> string

  function IdMap(created: map<nat, int>, text: IdText): map<nat, string> {
    map id | id in created :: text(created[id], RowNumber(created, id))
  }

  /** The text both tables use: prefix, to_char of created_at in UTC, row number. */
  function PrefixedText(prefix: string, stamp: int -> string): IdText {
    (createdAt: int, n: nat) => NewId(prefix + "-" + stamp(createdAt), n)
  }

  predicate Injective(m: map<nat, string>) {
    forall a, b | a in m && b in m && m[a] == m[b] :: a == b
  }

  lemma {:induction false} RowNumberBounds(created: map<nat, int>, id: nat)
    requires id in created
    ensures 1 <= RowNumber(created, id) <= |created|
  {
    StrictSubsetIsSmaller(Predecessors(created, id), created.Keys);
  }

  lemma {:induction false} RowNumberOrder(created: map<nat, int>, a: nat, b: nat)
    requires a in created && b in created && Earlier(created, a, b)
    ensures RowNumber(created, a) < RowNumber(created, b)
  {
    assert a in Predecessors(created, b) && a !in Predecessors(created, a);
    StrictSubsetIsSmaller(Predecessors(created, a), Predecessors(created, b));
  }

  /** Up to 99,999 rows the padded text is the whole number. */
  lemma {:induction false} NewIdIsNumbered(head: string, n: nat)
    requires n < 100000
    ensures NewId(head, n) == Numbered(head, n)
    ensures |LPad(Decimal(n), 5)| == 5 && Value(LPad(Decimal(n), 5)) == n
  {
    var w := ID_SEQUENCE_PAD_WIDTH;
    Widths();
    FixedOfDecimal(n, w);
    PaddedIsFixed(n, w);
    ValueOfPadded(Decimal(n), w);
    ValueOfDecimal(n);
  }

  /** For tables of any size: two rows get the same id exactly when their seconds
      print alike and their row numbers start with the same five padded digits. */
  lemma {:induction false} IdsCollideExactly(prefix: string, created: map<nat, int>, stamp: int -> string, a: nat, b: nat)
    requires a in created && b in created
    ensures var m := IdMap(created, PrefixedText(prefix, stamp));
      m[a] == m[b] <==>
        && stamp(created[a]) == stamp(created[b])
        && LPad(Decimal(RowNumber(created, a)), 5) == LPad(Decimal(RowNumber(created, b)), 5)
  {
    var da, db := Decimal(RowNumber(created, a)), Decimal(RowNumber(created, b));
    var x, y := stamp(created[a]), stamp(created[b]);
    LPadWidth(da, 5);
    LPadWidth(db, 5);
    var m := IdMap(created, PrefixedText(prefix, stamp));
    var headA, headB := prefix + "-" + x + "-", prefix + "-" + y + "-";
    assert m[a] == headA + LPad(da, 5) && m[b] == headB + LPad(db, 5);
    if m[a] == m[b] {
      assert |headA| == |headB|;
      LexConcat(headA, LPad(da, 5), headB, LPad(db, 5));
      assert headA[|prefix| + 1..|headA| - 1] == x && headB[|prefix| + 1..|headB| - 1] == y;
    }
  }

  lemma {:induction false} LPadWidth(s: string, width: nat)
    ensures |LPad(s, width)| == width
  {
    if |s| <= width { PadZeros(s, width); }
  }

  /** For tables of at most 99,999 rows the id map is injective. */
  lemma {:induction false} IdMapIsInjective(prefix: string, created: map<nat, int>, stamp: int -> string)
    requires |created| <= 99999
    ensures Injective(IdMap(created, PrefixedText(prefix, stamp)))
  {
    var m := IdMap(created, PrefixedText(prefix, stamp));
    forall a, b | a in m && b in m && m[a] == m[b] ensures a == b {
      var x, y := prefix + "-" + stamp(created[a]), prefix + "-" + stamp(created[b]);
      RowNumberBounds(created, a);
      RowNumberBounds(created, b);
      NewIdIsNumbered(x, RowNumber(created, a));
      NewIdIsNumbered(y, RowNumber(created, b));
      NumberedIsInjective(x, RowNumber(created, a), y, RowNumber(created, b));
      if Earlier(created, a, b) { RowNumberOrder(created, a, b); }
      if Earlier(created, b, a) { RowNumberOrder(created, b, a); }
    }
  }

  /** `stamp` prints the second of each creation time; those seconds have four-digit
      years and do not run backwards. */
  ghost predicate PrintsSeconds(created: map<nat, int>, stamp: int -> string, utc: int -> Second) {
    && (forall k | k in created :: var t := created[k]; stamp(t) == Stamp(utc(t)) && utc(t).Valid())
    && (forall j, k | j in created && k in created && created[j] <= created[k] ::
          utc(created[j]) == utc(created[k]) || utc(created[j]).Before(utc(created[k])))
  }

  /** A migrated id is the ref that would have been generated at the row's creation for
      its number; so a run of that second reads RUN-YYYYMMDD-HHMMSS-00001. */
  lemma {:induction false} NewIdIsRef(prefix: string, created: map<nat, int>, stamp: int -> string, utc: int -> Second, id: nat)
    requires |created| <= 99999 && PrintsSeconds(created, stamp, utc) && id in created
    ensures IdMap(created, PrefixedText(prefix, stamp))[id]
         == Ref(prefix, utc(created[id]), 1 + |set k | k in created && (created[k] < created[id] || (created[k] == created[id] && k < id))|)
  {
    RowNumberBounds(created, id);
    NewIdIsNumbered(prefix + "-" + stamp(created[id]), RowNumber(created, id));
    assert Predecessors(created, id) == set k | k in created && (created[k] < created[id] || (created[k] == created[id] && k < id));
  }

  /** Sorting by the new id is sorting by creation. */
  lemma {:induction false} IdMapKeepsOrder(prefix: string, created: map<nat, int>, stamp: int -> string, utc: int -> Second, a: nat, b: nat)
    requires |created| <= 99999 && PrintsSeconds(created, stamp, utc)
    requires a in created && b in created && Earlier(created, a, b)
    ensures LexLess(IdMap(created, PrefixedText(prefix, stamp))[a], IdMap(created, PrefixedText(prefix, stamp))[b])
  {
    RowNumberBounds(created, a);
    RowNumberBounds(created, b);
    RowNumberOrder(created, a, b);
    NewIdIsNumbered(prefix + "-" + stamp(created[a]), RowNumber(created, a));
    NewIdIsNumbered(prefix + "-" + stamp(created[b]), RowNumber(created, b));
    RefsSortByTime(prefix, utc(created[a]), RowNumber(created, a), utc(created[b]), RowNumber(created, b));
  }

  /** The bound is tight: row 100000 gets the id text of row 10000 of its second. */
  lemma {:induction false} RowHundredThousandCollides(head: string)
    ensures NewId(head, 100000) == NewId(head, 10000)
  {
    SixDigits();
    assert Decimal(10) == "10" && Decimal(100) == Decimal(10) + "0" && Decimal(1000) == Decimal(100) + "0";
    assert Decimal(10000) == Decimal(1000) + "0";
    assert Decimal(10000) == "10000" && "100000"[..5] == "10000";
  }

  // ----- depends_on -----

  /** array_agg over the LEFT JOIN, FILTER (WHERE new_id IS NOT NULL). */
  function RemapDeps(deps: seq<nat>, m: map<nat, string>): seq<string> {
    if deps == [] then [] else (if deps[0] in m then [m[deps[0]]] else []) + RemapDeps(deps[1..], m)
  }

  function Dangling(deps: seq<nat>, m: map<nat, string>): nat {
    if deps == [] then 0 else (if deps[0] in m then 0 else 1) + Dangling(deps[1..], m)
  }

  /** The mapped array is the old one as a multiset, minus exactly its dangling entries. */
  lemma {:induction false} DepsAreMapped(deps: seq<nat>, m: map<nat, string>)
    requires Injective(m)
    ensures forall x | x in m :: multiset(RemapDeps(deps, m))[m[x]] == multiset(deps)[x]
    ensures forall s | s in RemapDeps(deps, m) :: s in m.Values
    ensures |RemapDeps(deps, m)| + Dangling(deps, m) == |deps|
    ensures Dangling(deps, m) == 0 <==> forall d | d in deps :: d in m
  {
    if deps != [] {
      var d, rest := deps[0], deps[1..];
      DepsAreMapped(rest, m);
      assert deps == [d] + rest;
      forall x | x in m ensures multiset(RemapDeps(deps, m))[m[x]] == multiset(deps)[x] {
        assert multiset(RemapDeps(rest, m))[m[x]] == multiset(rest)[x];
        assert multiset(deps) == multiset([d]) + multiset(rest);
        if d in m { assert multiset(RemapDeps(deps, m)) == multiset([m[d]]) + multiset(RemapDeps(rest, m)); }
      }
    }
  }

  /** An id is among the mapped entries exactly when it was among the old ones. */
  lemma {:induction false} DepsMembership(deps: seq<nat>, m: map<nat, string>, x: nat)
    requires Injective(m) && x in m
    ensures m[x] in RemapDeps(deps, m) <==> x in deps
  {
    DepsAreMapped(deps, m);
    assert m[x] in multiset(RemapDeps(deps, m)) <==> multiset(RemapDeps(deps, m))[m[x]] > 0;
    assert x in multiset(deps) <==> multiset(deps)[x] > 0;
  }

  // ----- The database -----

  datatype Old = Old(
    experiments: map<nat, Experiment>,
    runs: map<nat, Run<nat>>,
    writeups: map<nat, Child<nat>>,
    results: map<nat, Child<nat>>,
    artifacts: map<nat, Child<nat>>)

  datatype New = New(
    experiments: map<string, Experiment>,
    runs: map<string, Run<string>>,
    writeups: map<nat, Child<string>>,
    results: map<nat, Child<string>>,
    artifacts: map<nat, Child<string>>)

  /** The foreign keys of 001_init.sql; depends_on has none. */
  predicate ForeignKeys(db: Old) {
    && (forall r | r in db.runs :: db.runs[r].experiment in db.experiments)
    && (forall w | w in db.writeups :: db.writeups[w].parent in db.experiments)
    && (forall r | r in db.results :: db.results[r].parent in db.runs)
    && (forall a | a in db.artifacts :: db.artifacts[a].parent in db.runs)
  }

  function ExperimentTimes(db: Old): map<nat, int> {
    map e | e in db.experiments :: db.experiments[e].createdAt
  }

  function RunTimes(db: Old): map<nat, int> {
    map r | r in db.runs :: db.runs[r].createdAt
  }

  function RemapChildren(children: map<nat, Child<nat>>, m: map<nat, string>): map<nat, Child<string>>
    requires forall c | c in children :: children[c].parent in m
  {
    map c | c in children :: Child(m[children[c].parent], children[c].body)
  }

  function RemapRun(r: Run<nat>, experiments: map<nat, string>, runs: map<nat, string>): Run<string>
    requires r.experiment in experiments
  {
    Run(experiments[r.experiment], r.createdAt, RemapDeps(r.dependsOn, runs), r.status)
  }

  /** What the migrated database is, given the two id maps. */
  predicate Migrated(db: Old, db': New, em: map<nat, string>, rm: map<nat, string>)
    requires ForeignKeys(db) && em.Keys == db.experiments.Keys && rm.Keys == db.runs.Keys
  {
    && db'.experiments.Keys == em.Values && (forall e | e in em :: db'.experiments[em[e]] == db.experiments[e])
    && db'.runs.Keys == rm.Values && (forall r | r in rm :: db'.runs[rm[r]] == RemapRun(db.runs[r], em, rm))
    && db'.writeups == RemapChildren(db.writeups, em)
    && db'.results == RemapChildren(db.results, rm)
    && db'.artifacts == RemapChildren(db.artifacts, rm)
  }

  /** The rows of a table under their new ids. */
  function Rekey<V>(rows: map<nat, V>, m: map<nat, string>): (r: map<string, V>)
    requires Injective(m) && m.Keys == rows.Keys
    ensures r.Keys == m.Values
    ensures forall k | k in m :: r[m[k]] == rows[k]
  {
    map k | k in m :: m[k] := rows[k]
  }

  /** ADD COLUMN, then UPDATE ... FROM the id map: rows without a match stay NULL. */
  function FilledColumn(keys: map<nat, nat>, m: map<nat, string>): map<nat, string> {
    map k | k in keys && keys[k] in m :: m[keys[k]]
  }

  function ParentColumn(children: map<nat, Child<nat>>): map<nat, nat> {
    map c | c in children :: children[c].parent
  }

  /** DROP COLUMN of the old key, RENAME of the new one. */
  function WithParents(children: map<nat, Child<nat>>, column: map<nat, string>): map<nat, Child<string>>
    requires column.Keys == children.Keys
  {
    map c | c in children :: Child(column[c], children[c].body)
  }

  /** With its foreign key in force no row of a child table is left NULL. */
  lemma {:induction false} ChildrenFollow(children: map<nat, Child<nat>>, m: map<nat, string>)
    requires forall c | c in children :: children[c].parent in m
    ensures FilledColumn(ParentColumn(children), m).Keys == children.Keys
    ensures WithParents(children, FilledColumn(ParentColumn(children), m)) == RemapChildren(children, m)
  {
    var column := FilledColumn(ParentColumn(children), m);
    assert forall c | c in children :: ParentColumn(children)[c] == children[c].parent;
    assert forall c | c in children :: c in column && column[c] == m[children[c].parent];
  }

  function OwnIds<V>(rows: map<nat, V>): map<nat, nat> { map k | k in rows :: k }

  lemma {:induction false} OwnIdsAreMapped<V>(rows: map<nat, V>, m: map<nat, string>)
    requires m.Keys == rows.Keys
    ensures FilledColumn(OwnIds(rows), m) == m
  {
    assert forall k | k in m :: k in OwnIds(rows) && OwnIds(rows)[k] == k;
  }

  function ExperimentColumn(runs: map<nat, Run<nat>>): map<nat, nat> {
    map r | r in runs :: runs[r].experiment
  }

  type OldRuns = map<nat, Run<nat>>

  /** The new columns of the run table, side by side before the swap. */
  function RunsInPlace(runs: OldRuns, experimentIdNew: map<nat, string>, dependsOnNew: map<nat, seq<string>>): map<nat, Run<string>>
    requires experimentIdNew.Keys == runs.Keys && dependsOnNew.Keys == runs.Keys
  {
    map r | r in runs :: Run(experimentIdNew[r], runs[r].createdAt, dependsOnNew[r], runs[r].status)
  }

  lemma {:induction false} RunColumnsFilled(runs: OldRuns, em: map<nat, string>)
    requires forall r | r in runs :: runs[r].experiment in em
    ensures var column := FilledColumn(ExperimentColumn(runs), em);
      column.Keys == runs.Keys && forall r | r in runs :: column[r] == em[runs[r].experiment]
  {
    assert forall r | r in runs :: ExperimentColumn(runs)[r] == runs[r].experiment;
  }

  /** Steps 3 to 6 of the DO block for the run table. */
  method RebuildRuns(runs: OldRuns, em: map<nat, string>, rm: map<nat, string>) returns (res: Result<map<string, Run<string>>, ()>)
    requires rm.Keys == runs.Keys && Injective(rm) && forall r | r in runs :: runs[r].experiment in em
    ensures res.Ok? && res.value.Keys == rm.Values
    ensures forall r | r in rm :: res.value[rm[r]] == RemapRun(runs[r], em, rm)
  {
    var dependsOnNew := map r | r in runs :: RemapDeps(runs[r].dependsOn, rm);
    var idNew := FilledColumn(OwnIds(runs), rm);
    OwnIdsAreMapped(runs, rm);
    var experimentIdNew := FilledColumn(ExperimentColumn(runs), em);
    RunColumnsFilled(runs, em);
    if idNew.Keys != runs.Keys || experimentIdNew.Keys != runs.Keys { return Err(()); }
    return Ok(Rekey(RunsInPlace(runs, experimentIdNew, dependsOnNew), idNew));
  }

  /** Steps 3 to 6 of the DO block: every new column is filled while all keys are
      still numbers, checked for NULLs, and takes the place of the old one. */
  method Rebuild(db: Old, em: map<nat, string>, rm: map<nat, string>) returns (res: Result<New, ()>)
    requires ForeignKeys(db) && em.Keys == db.experiments.Keys && rm.Keys == db.runs.Keys
    requires Injective(em) && Injective(rm)
    ensures res.Ok? && Migrated(db, res.value, em, rm)
  {
    var experimentIdNew := FilledColumn(OwnIds(db.experiments), em);
    OwnIdsAreMapped(db.experiments, em);
    var writeupColumn := FilledColumn(ParentColumn(db.writeups), em);
    ChildrenFollow(db.writeups, em);
    var resultColumn := FilledColumn(ParentColumn(db.results), rm);
    ChildrenFollow(db.results, rm);
    var artifactColumn := FilledColumn(ParentColumn(db.artifacts), rm);
    ChildrenFollow(db.artifacts, rm);
    var runs := RebuildRuns(db.runs, em, rm);
    if runs.Err? || experimentIdNew.Keys != db.experiments.Keys || writeupColumn.Keys != db.writeups.Keys
       || resultColumn.Keys != db.results.Keys || artifactColumn.Keys != db.artifacts.Keys {
      return Err(());
    }
    return Ok(New(Rekey(db.experiments, experimentIdNew), runs.value, WithParents(db.writeups, writeupColumn),
                  WithParents(db.results, resultColumn), WithParents(db.artifacts, artifactColumn)));
  }

  /** setval to max(right(new_id, 5)::bigint), when there is one. */
  function Continued(before: nat, m: map<nat, string>): nat {
    if Suffixes(m) == {} then before else Max(Suffixes(m))
  }

  /** The temporary tables experiment_id_map and run_id_map. */
  function ExperimentIds(db: Old, text: IdText): (m: map<nat, string>)
    ensures m.Keys == db.experiments.Keys
  {
    IdMap(ExperimentTimes(db), text)
  }

  function RunIds(db: Old, text: IdText): (m: map<nat, string>)
    ensures m.Keys == db.runs.Keys
  {
    IdMap(RunTimes(db), text)
  }

  /** Every experiment is there once, with its own values. */
  lemma {:induction false} ExperimentInColumns(db: Old, db': New, em: map<nat, string>, rm: map<nat, string>, e: nat)
    requires ForeignKeys(db) && em.Keys == db.experiments.Keys && rm.Keys == db.runs.Keys
    requires Injective(em) && Injective(rm) && Migrated(db, db', em, rm) && e in db.experiments
    ensures |db'.experiments| == |db.experiments| && |db'.runs| == |db.runs|
    ensures em[e] in db'.experiments && db'.experiments[em[e]] == db.experiments[e]
  {
    SameSize(db.experiments, db'.experiments, em);
    SameSize(db.runs, db'.runs, rm);
  }

  /** Every child row keeps its key and body and follows its parent. */
  lemma {:induction false} ChildrenInColumns(db: Old, db': New, em: map<nat, string>, rm: map<nat, string>, c: nat)
    requires ForeignKeys(db) && em.Keys == db.experiments.Keys && rm.Keys == db.runs.Keys && Migrated(db, db', em, rm)
    ensures (c in db.writeups <==> c in db'.writeups) && (c in db.results <==> c in db'.results)
    ensures c in db.artifacts <==> c in db'.artifacts
    ensures c in db.writeups ==> db'.writeups[c] == Child(em[db.writeups[c].parent], db.writeups[c].body)
    ensures c in db.results ==> db'.results[c] == Child(rm[db.results[c].parent], db.results[c].body)
    ensures c in db.artifacts ==> db'.artifacts[c] == Child(rm[db.artifacts[c].parent], db.artifacts[c].body)
  {
  }

  /** A migrated run: its own status and creation time, the image of its experiment, and
      of each known dependency as often as before. */
  lemma {:induction false} RunInColumns(db: Old, db': New, em: map<nat, string>, rm: map<nat, string>, r: nat)
    requires ForeignKeys(db) && em.Keys == db.experiments.Keys && rm.Keys == db.runs.Keys
    requires Injective(em) && Injective(rm) && Migrated(db, db', em, rm) && r in db.runs
    ensures rm[r] in db'.runs
    ensures var before, after := db.runs[r], db'.runs[rm[r]];
      && after.experiment == em[before.experiment] && after.createdAt == before.createdAt && after.status == before.status
      && (forall s | s in after.dependsOn :: s in rm.Values)
      && forall x | x in rm :: multiset(after.dependsOn)[rm[x]] == multiset(before.dependsOn)[x]
  {
    DepsAreMapped(db.runs[r].dependsOn, rm);
  }

  lemma {:induction false} SameSize<V, W>(rows: map<nat, V>, rekeyed: map<string, W>, m: map<nat, string>)
    requires Injective(m) && m.Keys == rows.Keys && rekeyed.Keys == m.Values
    ensures |rekeyed| == |rows|
  {
    ImageCount(m, m.Keys);
    assert m.Values == set k | k in m.Keys :: m[k];
    assert |m| == |m.Keys| == |rows.Keys| && |rekeyed| == |rekeyed.Keys|;
  }

  lemma {:induction false} ImageCount(m: map<nat, string>, keys: set<nat>)
    requires Injective(m) && keys <= m.Keys
    ensures |set k | k in keys :: m[k]| == |keys|
    decreases |keys|
  {
    if keys != {} {
      var k :| k in keys;
      ImageCount(m, keys - {k});
      assert (set j | j in keys :: m[j]) == (set j | j in keys - {k} :: m[j]) + {m[k]};
    }
  }

  /** The schema before and after: `current` is set once the ids are text. */
  class Schema {
    var old_: Old
    var current: Option<New>
    var experimentSeq: nat
    var runSeq: nat

    constructor (db: Old)
      ensures old_ == db && current == None && experimentSeq == 0 && runSeq == 0
    {
      old_, current, experimentSeq, runSeq := db, None, 0, 0;
    }

    /** The DO block: skips when already applied, refuses colliding ids, otherwise
        fills the new columns, swaps them in and moves the two sequences on. */
    method Migrate(experimentText: IdText, runText: IdText) returns (res: Result<(), ()>)
      requires ForeignKeys(old_)
      modifies this
      ensures old_ == old(old_)
      ensures old(current).Some? ==> res.Ok? && current == old(current) && experimentSeq == old(experimentSeq) && runSeq == old(runSeq)
      ensures old(current).None? ==>
        (res.Ok? <==> Injective(ExperimentIds(old_, experimentText)) && Injective(RunIds(old_, runText)))
      ensures old(current).None? && res.Err? ==>
        current.None? && experimentSeq == old(experimentSeq) && runSeq == old(runSeq)
      ensures old(current).None? && res.Ok? ==>
        && current.Some? && Migrated(old_, current.value, ExperimentIds(old_, experimentText), RunIds(old_, runText))
        && experimentSeq == Continued(old(experimentSeq), ExperimentIds(old_, experimentText))
        && runSeq == Continued(old(runSeq), RunIds(old_, runText))
    {
      if current.Some? { return Ok(()); }
      var em := ExperimentIds(old_, experimentText);
      var rm := RunIds(old_, runText);
      if !Injective(em) { return Err(()); }
      if !Injective(rm) { return Err(()); }
      var rebuilt := Rebuild(old_, em, rm);
      if rebuilt.Err? { return Err(()); }
      current := Some(rebuilt.value);
      experimentSeq := Continued(experimentSeq, em);
      runSeq := Continued(runSeq, rm);
      return Ok(());
    }
  }

  // ----- Joins and readiness -----

  /** Each foreign-key join commutes with the id map: a child belongs to the image
      of a row exactly when it belonged to the row, for every parent and child. */
  lemma {:induction false} JoinsCommute(children: map<nat, Child<nat>>, m: map<nat, string>, c: nat, p: nat)
    requires Injective(m) && (forall k | k in children :: children[k].parent in m)
    requires c in children && p in m
    ensures RemapChildren(children, m)[c].parent == m[p] <==> children[c].parent == p
    ensures RemapChildren(children, m)[c].body == children[c].body
  {
  }

  predicate Ready<K(==)>(r: Run<K>, runs: map<K, Run<K>>) {
    r.status.Queued? && forall d | d in r.dependsOn :: d in runs && runs[d].status.Completed?
  }

  /** All existing dependencies have completed. */
  predicate KnownDepsCompleted(r: Run<nat>, runs: map<nat, Run<nat>>) {
    forall d | d in r.dependsOn && d in runs :: runs[d].status.Completed?
  }

  /** After the migration a queued run is ready when its known dependencies have
      completed; so readiness is unchanged exactly for the runs that had no
      dangling dependency, or were blocked some other way. */
  lemma {:induction false} ReadinessIsKept(db: Old, db': New, em: map<nat, string>, rm: map<nat, string>, r: nat)
    requires ForeignKeys(db) && em.Keys == db.experiments.Keys && rm.Keys == db.runs.Keys
    requires Injective(em) && Injective(rm) && Migrated(db, db', em, rm) && r in db.runs
    ensures Ready(db'.runs[rm[r]], db'.runs) <==> db.runs[r].status.Queued? && KnownDepsCompleted(db.runs[r], db.runs)
    ensures (Ready(db'.runs[rm[r]], db'.runs) <==> Ready(db.runs[r], db.runs)) <==>
              || Dangling(db.runs[r].dependsOn, rm) == 0
              || !db.runs[r].status.Queued?
              || !KnownDepsCompleted(db.runs[r], db.runs)
  {
    var deps := db.runs[r].dependsOn;
    var new_ := db'.runs[rm[r]];
    DepsAreMapped(deps, rm);
    forall d | d in deps && d in db.runs
      ensures rm[d] in new_.dependsOn && db'.runs[rm[d]].status == db.runs[d].status
    {
      DepsMembership(deps, rm, d);
    }
    forall s | s in new_.dependsOn
      ensures exists d :: d in rm && rm[d] == s && d in deps
    {
      assert s in rm.Values;
      var d :| d in rm && rm[d] == s;
      DepsMembership(deps, rm, d);
    }
    if KnownDepsCompleted(db.runs[r], db.runs) {
      forall s | s in new_.dependsOn ensures s in db'.runs && db'.runs[s].status.Completed? {
        var d :| d in rm && rm[d] == s && d in deps;
      }
    }
  }

  /** Every queued run that waited on nothing but missing dependencies becomes ready. */
  lemma {:induction false} DanglingDependencyIsForgotten(db: Old, db': New, em: map<nat, string>, rm: map<nat, string>, r: nat)
    requires ForeignKeys(db) && em.Keys == db.experiments.Keys && rm.Keys == db.runs.Keys
    requires Injective(em) && Injective(rm) && Migrated(db, db', em, rm) && r in db.runs
    requires db.runs[r].status.Queued? && KnownDepsCompleted(db.runs[r], db.runs)
    requires exists d :: d in db.runs[r].dependsOn && d !in db.runs
    ensures !Ready(db.runs[r], db.runs) && Ready(db'.runs[rm[r]], db'.runs)
  {
    ReadinessIsKept(db, db', em, rm, r);
  }

  // ----- The sequences -----

  /** right(new_id, 5)::bigint */
  function Suffix(id: string): nat
    requires |id| >= 5 && forall c | c in id[|id| - 5..] :: IsDigit(c)
  {
    Value(id[|id| - 5..])
  }

  function SuffixOr0(id: string): nat {
    if |id| >= 5 && forall c | c in id[|id| - 5..] :: IsDigit(c) then Suffix(id) else 0
  }

  function Suffixes(m: map<nat, string>): set<nat> {
    set a | a in m :: SuffixOr0(m[a])
  }

  function Max(s: set<nat>): (n: nat)
    requires s != {}
    ensures n in s && forall x | x in s :: x <= n
  {
    LeastExists((a: nat, b: nat) => a >= b, s);
    var n :| n in s && forall x | x in s :: x <= n;
    n
  }

  lemma {:induction false} LPadIsDigits(n: nat)
    ensures var s := LPad(Decimal(n), 5); |s| == 5 && (forall c | c in s :: IsDigit(c)) && Value(s) < 100000
  {
    var s := LPad(Decimal(n), 5);
    LPadWidth(Decimal(n), 5);
    assert forall c | c in Decimal(n)[..] :: IsDigit(c);
    Widths();
    ValueBound(s);
  }

  /** The suffix of a new id is the value of its padded or cut row number. */
  lemma {:induction false} SuffixIsPadded(prefix: string, created: map<nat, int>, stamp: int -> string, id: nat)
    requires id in created
    ensures forall c | c in LPad(Decimal(RowNumber(created, id)), 5) :: IsDigit(c)
    ensures SuffixOr0(IdMap(created, PrefixedText(prefix, stamp))[id]) == Value(LPad(Decimal(RowNumber(created, id)), 5)) < 100000
    ensures RowNumber(created, id) < 100000 ==> SuffixOr0(IdMap(created, PrefixedText(prefix, stamp))[id]) == RowNumber(created, id)
  {
    var n := RowNumber(created, id);
    var text := IdMap(created, PrefixedText(prefix, stamp))[id];
    LPadIsDigits(n);
    assert text[|text| - 5..] == LPad(Decimal(n), 5);
    if n < 100000 { NewIdIsNumbered(prefix + "-" + stamp(created[id]), n); }
  }

  /** For tables of any size, no ref generated after the migration is a migrated id,
      whatever its prefix and time. */
  lemma {:induction false} ContinuedSequenceIsFresh(
    prefix: string, created: map<nat, int>, stamp: int -> string, id: nat, before: nat, next: nat, p: string, t: Second)
    requires id in created
    requires next > Continued(before, IdMap(created, PrefixedText(prefix, stamp)))
    ensures Ref(p, t, next) != IdMap(created, PrefixedText(prefix, stamp))[id]
  {
    var m := IdMap(created, PrefixedText(prefix, stamp));
    var padded := LPad(Decimal(RowNumber(created, id)), 5);
    SuffixIsPadded(prefix, created, stamp, id);
    assert SuffixOr0(m[id]) in Suffixes(m);
    if Ref(p, t, next) == m[id] {
      LPadIsDigits(RowNumber(created, id));
      TailAfterDash(p + "-" + Stamp(t), ZeroPad(Decimal(next), 5), prefix + "-" + stamp(created[id]), padded);
      ValueOfPadded(Decimal(next), 5);
      ValueOfDecimal(next);
    }
  }

  /** The row number itself is drawn again exactly when it has more than five digits:
      the continued sequence then starts below it. */
  lemma {:induction false} NumberIsReissuedExactly(
    prefix: string, created: map<nat, int>, stamp: int -> string, id: nat, before: nat)
    requires id in created
    ensures RowNumber(created, id) > Continued(before, IdMap(created, PrefixedText(prefix, stamp)))
            <==> RowNumber(created, id) > 99999
  {
    var m := IdMap(created, PrefixedText(prefix, stamp));
    SuffixIsPadded(prefix, created, stamp, id);
    assert SuffixOr0(m[id]) in Suffixes(m);
    forall k | k in created ensures SuffixOr0(m[k]) < 100000 { SuffixIsPadded(prefix, created, stamp, k); }
  }

  /** Row numbers leave no gap: the last of the first `n` rows has number `n`. */
  lemma {:induction false} RowWithNumber(created: map<nat, int>, n: nat) returns (id: nat)
    requires 1 <= n <= |created|
    ensures id in created && RowNumber(created, id) == n
    decreases |created|
  {
    var last := LastRow(created);
    if n == |created| {
      assert Predecessors(created, last) == created.Keys - {last};
      id := last;
    } else {
      var others := created - {last};
      assert others.Keys == created.Keys - {last};
      id := RowWithNumber(others, n);
      assert Predecessors(created, id) == Predecessors(others, id);
    }
  }

  lemma {:induction false} LastRow(created: map<nat, int>) returns (last: nat)
    requires created != map[]
    ensures last in created && forall k | k in created && k != last :: Earlier(created, k, last)
  {
    var later := (a: nat, b: nat) => a in created && b in created && (a == b || Earlier(created, b, a));
    assert created.Keys != {};
    LeastExists(later, created.Keys);
    last :| IsLeast(later, created.Keys, last);
  }

  /** Where the sequence goes on: after the number of rows, or after 99,999 when there
      are more; over an empty table it stays. */
  lemma {:induction false} SequenceContinues(prefix: string, created: map<nat, int>, stamp: int -> string, before: nat)
    ensures Continued(before, IdMap(created, PrefixedText(prefix, stamp)))
         == if created == map[] then before else if |created| <= 99999 then |created| else 99999
  {
    var m := IdMap(created, PrefixedText(prefix, stamp));
    if created != map[] {
      var top := if |created| <= 99999 then |created| else 99999;
      var id := RowWithNumber(created, top);
      SuffixIsPadded(prefix, created, stamp, id);
      assert SuffixOr0(m[id]) in Suffixes(m);
      forall k | k in created ensures SuffixOr0(m[k]) <= top {
        SuffixIsPadded(prefix, created, stamp, k);
        RowNumberBounds(created, k);
      }
    }
  }
}
