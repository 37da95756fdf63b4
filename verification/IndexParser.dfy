/** The INDEX.md scan of scripts/migrate_chris_experiments.py: headings, experiment blocks and their fields. */
module IndexParser {
  import opened Common

  datatype Programme = Programme(slug: string, name: string, uncommitted: bool)

  /** A line as the scan's three patterns and the "---" test classify it. Field
      names are lower case, values stripped. */
  datatype Line =
    | Heading(programme: Programme)
    | ExperimentHead(heading: string)
    | Rule
    | Field(name: string, value: string)
    | OtherText

  datatype ParsedExperiment = ParsedExperiment(
    programme: Programme, heading: string, path: Option<string>,
    rawStatus: Option<string>, summary: Option<string>, result: Option<string>)

  predicate EndsBlock(line: Line) { line.Heading? || line.ExperimentHead? || line.Rule? }

  function StripBackticks(s: string): string {
    StripRight(StripLeft(s))
  }

  function StripLeft(s: string): string {
    if s != [] && s[0] == '`' then StripLeft(s[1..]) else s
  }

  function StripRight(s: string): string {
    if s != [] && s[|s| - 1] == '`' then StripRight(s[..|s| - 1]) else s
  }

  function Lookup(fields: map<string, string>, name: string): Option<string> {
    if name in fields then Some(fields[name]) else None
  }

  // ----- Specification: each line on its own -----

  /** The programme in force at line `k`: the nearest heading above it. */
  function ProgrammeAt(lines: seq<Line>, k: nat): Option<Programme>
    requires k <= |lines|
  {
    if k == 0 then None
    else if lines[k - 1].Heading? then Some(lines[k - 1].programme)
    else ProgrammeAt(lines, k - 1)
  }

  /** The first line from `k` on that ends a block. */
  function BlockEnd(lines: seq<Line>, k: nat): (e: nat)
    requires k <= |lines|
    ensures k <= e <= |lines|
    ensures forall i | k <= i < e :: !EndsBlock(lines[i])
    ensures e < |lines| ==> EndsBlock(lines[e])
    decreases |lines| - k
  {
    if k == |lines| || EndsBlock(lines[k]) then k else BlockEnd(lines, k + 1)
  }

  /** The fields of lines[a..b], a later bullet overriding an earlier one. */
  function FieldsIn(lines: seq<Line>, a: nat, b: nat): map<string, string>
    requires a <= b <= |lines|
  {
    if a == b then map[]
    else if lines[b - 1].Field? then FieldsIn(lines, a, b - 1)[lines[b - 1].name := lines[b - 1].value]
    else FieldsIn(lines, a, b - 1)
  }

  function FromFields(programme: Programme, heading: string, fields: map<string, string>): seq<ParsedExperiment> {
    if "path" !in fields then [] else
      var path := StripBackticks(fields["path"]);
      [ParsedExperiment(programme, heading, if path == "" then None else Some(path),
                        Lookup(fields, "status"), Lookup(fields, "summary"), Lookup(fields, "result"))]
  }

  /** The experiment line `k` introduces: one when it is an experiment head below
      some programme heading and its block has a Path bullet, else none. */
  function ExperimentAt(lines: seq<Line>, k: nat): seq<ParsedExperiment>
    requires k < |lines|
  {
    if lines[k].ExperimentHead? && ProgrammeAt(lines, k).Some?
    then FromFields(ProgrammeAt(lines, k).value, lines[k].heading, FieldsIn(lines, k + 1, BlockEnd(lines, k + 1)))
    else []
  }

  function ExperimentsBefore(lines: seq<Line>, k: nat): seq<ParsedExperiment>
    requires k <= |lines|
  {
    if k == 0 then [] else ExperimentsBefore(lines, k - 1) + ExperimentAt(lines, k - 1)
  }

  /** Lines inside a block introduce nothing and keep the programme. */
  lemma {:induction false} BlockLinesAreSilent(lines: seq<Line>, a: nat, b: nat)
    requires a <= b <= |lines| && forall i | a <= i < b :: !EndsBlock(lines[i])
    ensures ExperimentsBefore(lines, b) == ExperimentsBefore(lines, a)
    ensures ProgrammeAt(lines, b) == ProgrammeAt(lines, a)
    decreases b
  {
    if a < b { BlockLinesAreSilent(lines, a, b - 1); }
  }

  /** The nested scan: every experiment head is read with the block after it, in
      document order, exactly as the line-by-line specification says. */
  method ParseIndex(lines: seq<Line>) returns (experiments: seq<ParsedExperiment>)
    ensures experiments == ExperimentsBefore(lines, |lines|)
  {
    experiments := [];
    var programme: Option<Programme> := None;
    var i := 0;
    while i < |lines|
      invariant 0 <= i <= |lines|
      invariant programme == ProgrammeAt(lines, i)
      invariant experiments == ExperimentsBefore(lines, i)
      decreases |lines| - i
    {
      var line := lines[i];
      if line.Heading? {
        programme := Some(line.programme);
        i := i + 1;
        continue;
      }
      if line.ExperimentHead? && programme.Some? {
        var fields: map<string, string> := map[];
        var j := i + 1;
        while j < |lines|
          invariant i + 1 <= j <= |lines|
          invariant forall k | i < k < j :: !EndsBlock(lines[k])
          invariant fields == FieldsIn(lines, i + 1, j)
        {
          var next := lines[j];
          if next.Heading? || next.ExperimentHead? || next.Rule? { break; }
          if next.Field? { fields := fields[next.name := next.value]; }
          j := j + 1;
        }
        BlockEndIs(lines, i + 1, j);
        BlockLinesAreSilent(lines, i + 1, j);
        if "path" in fields {
          var path := StripBackticks(fields["path"]);
          experiments := experiments + [ParsedExperiment(
            programme.value, line.heading, if path == "" then None else Some(path),
            Lookup(fields, "status"), Lookup(fields, "summary"), Lookup(fields, "result"))];
        }
        i := j;
        continue;
      }
      i := i + 1;
    }
  }

  lemma {:induction false} BlockEndIs(lines: seq<Line>, k: nat, e: nat)
    requires k <= e <= |lines|
    requires forall i | k <= i < e :: !EndsBlock(lines[i])
    requires e < |lines| ==> EndsBlock(lines[e])
    ensures BlockEnd(lines, k) == e
    decreases e - k
  {
    if k < e { BlockEndIs(lines, k + 1, e); }
  }

  // ----- What an experiment holds -----

  predicate Ticks(s: string) { forall c | c in s :: c == '`' }

  lemma {:induction false} StripLeftDropsTicks(s: string) returns (k: nat)
    ensures k <= |s| && StripLeft(s) == s[k..] && Ticks(s[..k])
    ensures StripLeft(s) != "" ==> StripLeft(s)[0] != '`'
  {
    k := 0;
    if s != [] && s[0] == '`' {
      k := StripLeftDropsTicks(s[1..]);
      assert s[1..][k..] == s[k + 1..] && s[..k + 1] == [s[0]] + s[1..][..k];
      k := k + 1;
    }
  }

  lemma {:induction false} StripRightDropsTicks(s: string) returns (k: nat)
    ensures k <= |s| && StripRight(s) == s[..k] && Ticks(s[k..])
    ensures StripRight(s) != "" ==> StripRight(s)[|StripRight(s)| - 1] != '`'
  {
    k := |s|;
    if s != [] && s[|s| - 1] == '`' {
      var init := s[..|s| - 1];
      k := StripRightDropsTicks(init);
      assert init[..k] == s[..k] && s[k..] == init[k..] + [s[|s| - 1]];
    }
  }

  /** strip("`"): backticks are dropped from both ends, all of them and nothing else. */
  lemma {:induction false} StripsBackticks(s: string) returns (i: nat, j: nat)
    ensures i <= j <= |s| && StripBackticks(s) == s[i..j] && Ticks(s[..i]) && Ticks(s[j..])
    ensures var r := StripBackticks(s); r != "" ==> r[0] != '`' && r[|r| - 1] != '`'
  {
    i := StripLeftDropsTicks(s);
    var left := StripLeft(s);
    var k := StripRightDropsTicks(left);
    j := i + k;
    assert left[..k] == s[i..j] && left[k..] == s[j..];
  }

  /** `v` is what the last bullet of that name in lines[a..b] says; None without one. */
  ghost predicate FieldIs(lines: seq<Line>, a: nat, b: nat, name: string, v: Option<string>)
    requires a <= b <= |lines|
  {
    match v
    case None => forall j | a <= j < b :: !(lines[j].Field? && lines[j].name == name)
    case Some(text) => exists j :: a <= j < b && lines[j] == Field(name, text)
                                   && forall i | j < i < b :: !(lines[i].Field? && lines[i].name == name)
  }

  lemma {:induction false} FieldsAreLast(lines: seq<Line>, a: nat, b: nat, name: string)
    requires a <= b <= |lines|
    ensures FieldIs(lines, a, b, name, Lookup(FieldsIn(lines, a, b), name))
  {
    if a < b {
      FieldsAreLast(lines, a, b - 1, name);
      var before := Lookup(FieldsIn(lines, a, b - 1), name);
      if lines[b - 1].Field? && lines[b - 1].name == name {
        assert lines[b - 1] == Field(name, lines[b - 1].value);
      } else if before.Some? {
        var j :| a <= j < b - 1 && lines[j] == Field(name, before.value)
                 && forall i | j < i < b - 1 :: !(lines[i].Field? && lines[i].name == name);
        assert forall i | j < i < b :: !(lines[i].Field? && lines[i].name == name);
      }
    }
  }

  /** The heading in force at line `k` is the nearest one above. */
  lemma {:induction false} ProgrammeIsNearest(lines: seq<Line>, k: nat)
    requires k <= |lines|
    ensures match ProgrammeAt(lines, k)
      case None => forall h | 0 <= h < k :: !lines[h].Heading?
      case Some(p) => exists h :: 0 <= h < k && lines[h] == Heading(p) && forall i | h < i < k :: !lines[i].Heading?
  {
    if k > 0 && !lines[k - 1].Heading? { ProgrammeIsNearest(lines, k - 1); }
    if k > 0 && lines[k - 1].Heading? { assert lines[k - 1] == Heading(lines[k - 1].programme); }
  }

  /** A line is read as an experiment exactly when it is an experiment head below some
      heading and a Path bullet stands between it and the end of its block. */
  lemma {:induction false} ReadExactly(lines: seq<Line>, k: nat)
    requires k < |lines|
    ensures |ExperimentAt(lines, k)| ==
              if lines[k].ExperimentHead? && (exists h :: 0 <= h < k && lines[h].Heading?)
                 && (exists j :: k < j < BlockEnd(lines, k + 1) && lines[j].Field? && lines[j].name == "path")
              then 1 else 0
  {
    ProgrammeIsNearest(lines, k);
    FieldsAreLast(lines, k + 1, BlockEnd(lines, k + 1), "path");
  }

  /** And then every part of the experiment comes from its own bullet, the last of that
      name in the block, and the programme from the nearest heading above. */
  lemma {:induction false} ExperimentInColumns(lines: seq<Line>, k: nat)
    requires k < |lines| && ExperimentAt(lines, k) != []
    ensures var e, end := ExperimentAt(lines, k)[0], BlockEnd(lines, k + 1);
      && lines[k] == ExperimentHead(e.heading)
      && (exists h :: 0 <= h < k && lines[h] == Heading(e.programme) && forall i | h < i < k :: !lines[i].Heading?)
      && (exists p :: FieldIs(lines, k + 1, end, "path", Some(p))
                      && e.path == if StripBackticks(p) == "" then None else Some(StripBackticks(p)))
      && FieldIs(lines, k + 1, end, "status", e.rawStatus)
      && FieldIs(lines, k + 1, end, "summary", e.summary)
      && FieldIs(lines, k + 1, end, "result", e.result)
  {
    var end := BlockEnd(lines, k + 1);
    var fields := FieldsIn(lines, k + 1, end);
    ProgrammeIsNearest(lines, k);
    FieldsAreLast(lines, k + 1, end, "path");
    FieldsAreLast(lines, k + 1, end, "status");
    FieldsAreLast(lines, k + 1, end, "summary");
    FieldsAreLast(lines, k + 1, end, "result");
    assert "path" in fields && FieldIs(lines, k + 1, end, "path", Some(fields["path"]));
  }

  /** The list has each such experiment once, in the order of the lines. */
  lemma {:induction false} InDocumentOrder(lines: seq<Line>, k: nat) returns (at: seq<nat>)
    requires k <= |lines|
    ensures var experiments := ExperimentsBefore(lines, k);
      && |at| == |experiments|
      && (forall i | 0 <= i < |at| :: at[i] < k && ExperimentAt(lines, at[i]) == [experiments[i]])
    ensures forall i, j | 0 <= i < j < |at| :: at[i] < at[j]
    ensures forall l | 0 <= l < k && ExperimentAt(lines, l) != [] :: l in at
  {
    at := [];
    if k > 0 {
      at := InDocumentOrder(lines, k - 1);
      if ExperimentAt(lines, k - 1) != [] {
        assert |ExperimentAt(lines, k - 1)| == 1;
        at := at + [k - 1];
      }
    }
  }
}
