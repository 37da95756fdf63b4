/** The artifact routes as uninterrupted calls. */
module ArtifactStore {
  // Registration, upload or dedup, and batches (rest/artifacts.py and service/artifacts.py).

  import opened Common
  import opened Artifacts

  /** The table and the number of files uploaded to Drive so far. */
  datatype Stored = Stored(rows: Rows, uploads: nat)

  /** INSERT, and on a unique violation a second INSERT as used. */
  function Registered(rows: Rows, row: Artifact): Rows {
    rows + [if Violates(rows, row) then row.(role := Used) else row]
  }

  /** One upload: `fileName` names the n-th file Drive creates. */
  function Uploaded(st: Stored, u: Upload, fileName: nat -> string): Stored {
    var existing := FindByNameSha(st.rows, u.name, u.sha);
    if existing.Some? then Stored(Registered(st.rows, RowForHit(u, existing.value)), st.uploads)
    else Stored(Registered(st.rows, RowForMiss(u, fileName(st.uploads))), st.uploads + 1)
  }

  function UploadedAll(st: Stored, us: seq<Upload>, fileName: nat -> string): Stored {
    if us == [] then st
    else Uploaded(UploadedAll(st, us[..|us| - 1], fileName), us[|us| - 1], fileName)
  }

  /** An item of a batch request: decoding yields the content's sha256 or nothing. */
  datatype Item = Item(name: string, filename: string, meta: Meta, role: Option<Role>, decodedSha: Option<string>)

  function ToUpload(run: string, item: Item): Upload
    requires item.decodedSha.Some?
  {
    Upload(run, item.name, item.decodedSha.value, item.filename, item.meta, item.role)
  }

  function ToUploads(run: string, items: seq<Item>): (us: seq<Upload>)
    requires forall i | 0 <= i < |items| :: items[i].decodedSha.Some?
    ensures |us| == |items|
    ensures forall i | 0 <= i < |us| :: us[i] == ToUpload(run, items[i])
  {
    if items == [] then [] else [ToUpload(run, items[0])] + ToUploads(run, items[1..])
  }

  // ----- What the calls promise, read off the columns -----

  /** A produced row of the same name and content is stored: equal sha256, or, when
      neither has one, equal uri. A row without a name is never a repetition. */
  predicate AlreadyProduced(rows: Rows, row: Artifact) {
    exists i :: 0 <= i < |rows| && rows[i].role.Produced? && row.name.Some? && rows[i].name == row.name
                && rows[i].sha256 == row.sha256 && (row.sha256.Some? || rows[i].uri == row.uri)
  }

  /** One row is added, the one given but for its role: produced exactly when that was
      asked for and the content has no producer yet. */
  predicate RegisterAnswer(before: Rows, after: Rows, row: Artifact) {
    && |after| == |before| + 1 && after[..|before|] == before
    && var stored := after[|before|];
       && stored == row.(role := stored.role)
       && (stored.role.Produced? <==> row.role.Produced? && !AlreadyProduced(before, row))
  }

  lemma {:induction false} ViolatesIsRepetition(rows: Rows, row: Artifact)
    ensures Violates(rows, row) <==> row.role.Produced? && AlreadyProduced(rows, row)
  {
    if row.role.Produced? && AlreadyProduced(rows, row) {
      var i :| 0 <= i < |rows| && rows[i].role.Produced? && row.name.Some? && rows[i].name == row.name
               && rows[i].sha256 == row.sha256 && (row.sha256.Some? || rows[i].uri == row.uri);
      assert CollidesOnSha(rows[i], row) || CollidesOnUri(rows[i], row);
    }
  }

  lemma {:induction false} RegisterInColumns(rows: Rows, row: Artifact)
    ensures RegisterAnswer(rows, Registered(rows, row), row)
  {
    ViolatesIsRepetition(rows, row);
  }

  /** The unique indexes go on holding: no content gets a second produced row. */
  lemma {:induction false} RegisterKeepsIndexes(rows: Rows, row: Artifact, c: Content)
    requires ProducedCount(rows, c) <= 1
    ensures ProducedCount(rows, c) <= ProducedCount(Registered(rows, row), c) <= 1
    ensures ProducedCount(Registered(rows, row), c) == 1 <==>
              ProducedCount(rows, c) == 1 || (row.role.Produced? && ContentOf(row) == Some(c))
  {
    ViolationIsProducedContent(rows, row);
    CountAppend(rows, if Violates(rows, row) then row.(role := Used) else row, c);
  }

  /** Row `k` is what the dedup lookup is for: of the rows of the pair, a produced one
      before any other, and the oldest among equals. */
  predicate IsSource(rows: Rows, name: string, sha: string, k: int) {
    && 0 <= k < |rows| && rows[k].name == Some(name) && rows[k].sha256 == Some(sha)
    && forall j | 0 <= j < |rows| && j != k && rows[j].name == Some(name) && rows[j].sha256 == Some(sha) ::
         (rows[k].role.Produced? && !rows[j].role.Produced?) || (rows[k].role == rows[j].role && k < j)
  }

  predicate HasPair(rows: Rows, name: string, sha: string) {
    exists i :: 0 <= i < |rows| && rows[i].name == Some(name) && rows[i].sha256 == Some(sha)
  }

  /** One row of the run is added, with the caller's name, digest, filename and, but for
      drive_url, meta. Content stored before keeps its uri and drive_url and is used by
      default; new content is one new Drive file, with its own uri and drive_url, and is
      produced by default. */
  ghost predicate UploadAnswer(before: Stored, after: Stored, u: Upload, fileName: nat -> string) {
    && |after.rows| == |before.rows| + 1 && after.rows[..|before.rows|] == before.rows
    && var stored := after.rows[|before.rows|];
       var hit := HasPair(before.rows, u.name, u.sha);
       && stored.run == Some(u.run) && stored.experiment == None && stored.name == Some(u.name) && stored.sha256 == Some(u.sha)
       && "source_path" in stored.meta && stored.meta["source_path"] == u.filename
       && (forall key | key != "source_path" && key != "drive_url" ::
             (key in stored.meta <==> key in u.meta) && (key in u.meta ==> stored.meta[key] == u.meta[key]))
       && after.uploads == before.uploads + (if hit then 0 else 1)
       && (hit ==> exists k :: IsSource(before.rows, u.name, u.sha, k) && ReusesFile(stored, before.rows[k], u))
       && (!hit ==>
             && stored.uri == "gdrive://" + fileName(before.uploads)
             && "drive_url" in stored.meta
             && stored.meta["drive_url"] == "https://drive.google.com/file/d/" + fileName(before.uploads) + "/view")
       && (stored.role.Produced? <==>
             && (if u.role.Some? then u.role.value.Produced? else !hit)
             && !AlreadyProduced(before.rows, stored))
  }

  predicate RowFor(row: Artifact, u: Upload) {
    row.run == Some(u.run) && row.name == Some(u.name) && row.sha256 == Some(u.sha)
  }

  /** The uri of `source`, and its drive_url or, when it has none, the caller's. */
  predicate ReusesFile(stored: Artifact, source: Artifact, u: Upload) {
    && stored.uri == source.uri
    && if "drive_url" in source.meta then "drive_url" in stored.meta && stored.meta["drive_url"] == source.meta["drive_url"]
       else ("drive_url" in stored.meta <==> "drive_url" in u.meta)
            && ("drive_url" in u.meta ==> stored.meta["drive_url"] == u.meta["drive_url"])
  }

  lemma {:induction false} FirstMatchIsFirst(rows: Rows, name: string, sha: string, producedOnly: bool)
    ensures FirstMatch(rows, name, sha, producedOnly).Some? ==>
              exists k :: 0 <= k < |rows| && FirstMatch(rows, name, sha, producedOnly) == Some(rows[k])
                          && MatchesNameSha(rows[k], name, sha) && (producedOnly ==> rows[k].role.Produced?)
                          && forall j | 0 <= j < k :: !(MatchesNameSha(rows[j], name, sha) && (producedOnly ==> rows[j].role.Produced?))
  {
    if rows != [] && !(MatchesNameSha(rows[0], name, sha) && (producedOnly ==> rows[0].role.Produced?)) {
      var rest := rows[1..];
      FirstMatchIsFirst(rest, name, sha, producedOnly);
      if FirstMatch(rest, name, sha, producedOnly).Some? {
        var k :| 0 <= k < |rest| && FirstMatch(rest, name, sha, producedOnly) == Some(rest[k])
                 && MatchesNameSha(rest[k], name, sha) && (producedOnly ==> rest[k].role.Produced?)
                 && forall j | 0 <= j < k :: !(MatchesNameSha(rest[j], name, sha) && (producedOnly ==> rest[j].role.Produced?));
        assert rows[k + 1] == rest[k];
        assert forall j | 0 < j < |rows| :: rows[j] == rest[j - 1];
      }
    }
  }

  lemma {:induction false} LookupFindsSource(rows: Rows, name: string, sha: string)
    ensures FindByNameSha(rows, name, sha).Some? <==> HasPair(rows, name, sha)
    ensures HasPair(rows, name, sha) ==>
              exists k :: IsSource(rows, name, sha, k) && FindByNameSha(rows, name, sha) == Some(rows[k])
  {
    FindByNameShaFinds(rows, name, sha);
    FirstMatchFinds(rows, name, sha, true);
    FirstMatchIsFirst(rows, name, sha, true);
    FirstMatchIsFirst(rows, name, sha, false);
    assert HasPair(rows, name, sha) <==> exists i :: 0 <= i < |rows| && MatchesNameSha(rows[i], name, sha);
    if HasPair(rows, name, sha) {
      var producedOnly := FirstMatch(rows, name, sha, true).Some?;
      var k :| 0 <= k < |rows| && FirstMatch(rows, name, sha, producedOnly) == Some(rows[k])
               && MatchesNameSha(rows[k], name, sha) && (producedOnly ==> rows[k].role.Produced?)
               && forall j | 0 <= j < k :: !(MatchesNameSha(rows[j], name, sha) && (producedOnly ==> rows[j].role.Produced?));
      assert IsSource(rows, name, sha, k);
    }
  }

  lemma {:induction false} UploadInColumns(st: Stored, u: Upload, fileName: nat -> string)
    ensures UploadAnswer(st, Uploaded(st, u, fileName), u, fileName)
  {
    LookupFindsSource(st.rows, u.name, u.sha);
    var existing := FindByNameSha(st.rows, u.name, u.sha);
    var row := if existing.Some? then RowForHit(u, existing.value) else RowForMiss(u, fileName(st.uploads));
    RegisterInColumns(st.rows, row);
    assert "source_path"[0] != "drive_url"[0];
    if existing.Some? {
      var k :| IsSource(st.rows, u.name, u.sha, k) && existing == Some(st.rows[k]);
      var stored := Uploaded(st, u, fileName).rows[|st.rows|];
      assert ReusesFile(stored, st.rows[k], u);
    }
    RepetitionIgnoresRole(st.rows, row, Uploaded(st, u, fileName).rows[|st.rows|]);
  }

  /** Each table is the one before after its upload, and a beginning of the last one. */
  ghost predicate Uploading(tables: seq<Stored>, us: seq<Upload>, fileName: nat -> string) {
    && |tables| == |us| + 1
    && (forall i | 0 <= i < |us| :: UploadAnswer(tables[i], tables[i + 1], us[i], fileName))
    && forall i | 0 <= i <= |us| :: |tables[i].rows| == |tables[0].rows| + i && tables[i].rows <= tables[|us|].rows
  }

  lemma {:induction false} UploadingOneMore(tables: seq<Stored>, next: Stored, us: seq<Upload>, u: Upload, fileName: nat -> string)
    requires Uploading(tables, us, fileName) && UploadAnswer(tables[|us|], next, u, fileName)
    ensures Uploading(tables + [next], us + [u], fileName)
  {
    var all := tables + [next];
    assert tables[|us|].rows <= next.rows;
    forall i | 0 <= i <= |us| ensures |all[i].rows| == |all[0].rows| + i && all[i].rows <= next.rows {
      assert all[i].rows <= tables[|us|].rows;
    }
  }

  /** The tables an upload loop goes through: every item is answered from the table that
      all the earlier ones left. */
  lemma {:induction false} EachInColumns(st: Stored, us: seq<Upload>, fileName: nat -> string) returns (tables: seq<Stored>)
    ensures Uploading(tables, us, fileName) && tables[0] == st && tables[|us|] == UploadedAll(st, us, fileName)
    decreases |us|
  {
    if us == [] {
      tables := [st];
    } else {
      var init, u := us[..|us| - 1], us[|us| - 1];
      var before := EachInColumns(st, init, fileName);
      var next := Uploaded(before[|init|], u, fileName);
      UploadInColumns(before[|init|], u, fileName);
      UploadingOneMore(before, next, init, u, fileName);
      assert us == init + [u];
      tables := before + [next];
    }
  }

  /** The rows added are one for each item, in order. */
  lemma {:induction false} RowForEach(st: Stored, us: seq<Upload>, fileName: nat -> string)
    ensures var rows := UploadedAll(st, us, fileName).rows;
      && |rows| == |st.rows| + |us| && st.rows <= rows
      && forall i | 0 <= i < |us| :: RowFor(rows[|st.rows| + i], us[i])
  {
    var tables := EachInColumns(st, us, fileName);
    var rows := tables[|us|].rows;
    assert tables[0].rows <= rows;
    forall i | 0 <= i < |us| ensures RowFor(rows[|st.rows| + i], us[i]) {
      assert UploadAnswer(tables[i], tables[i + 1], us[i], fileName) && tables[i + 1].rows <= rows;
      assert rows[|st.rows| + i] == tables[i + 1].rows[|st.rows| + i];
    }
  }

  lemma {:induction false} RepetitionIgnoresRole(rows: Rows, a: Artifact, b: Artifact)
    requires b == a.(role := b.role)
    ensures AlreadyProduced(rows, a) <==> AlreadyProduced(rows, b)
  {
  }

  // ----- The calls run alone -----

  lemma {:induction false} LastInsert(s: State, o: OpId)
    requires Enabled(s, Insert(o)) && s.ops[o].row.role.Used?
    ensures Behaviour(s, [Insert(o)]) && Final(s, [Insert(o)]).rows == s.rows + [s.ops[o].row]
  {
    assert [Insert(o)][1..] == [] && Behaviour(Do(s, Insert(o)), []);
  }

  lemma {:induction false} InsertAlone(s: State, o: OpId) returns (labels: seq<Label>)
    requires o in s.ops && s.ops[o].Inserting?
    ensures Behaviour(s, labels) && Final(s, labels).rows == Registered(s.rows, s.ops[o].row) && Final(s, labels).files == s.files
  {
    var row, s1 := s.ops[o].row, Do(s, Insert(o));
    labels := [Insert(o)];
    assert labels[1..] == [] && Behaviour(s1, []) && Behaviour(s, labels) && Final(s, labels) == s1;
    if Violates(s.rows, row) {
      LastInsert(s1, o);
      BehaviourConcat(s, labels, [Insert(o)]);
      labels := labels + [Insert(o)];
    }
  }

  /** With no crash and no one else in between, the steps of a registration add up to
      the uninterrupted one. */
  lemma {:induction false} RegisterAlone(s: State, o: OpId, row: Artifact) returns (labels: seq<Label>)
    requires Enabled(s, StartRegister(o, row))
    ensures Behaviour(s, labels) && Final(s, labels).rows == Registered(s.rows, row)
  {
    var start := StartRegister(o, row);
    var inserts := InsertAlone(Do(s, start), o);
    labels := [start] + inserts;
    assert labels[1..] == inserts;
  }

  /** So do the steps of an upload, whatever new file name Drive gives. */
  lemma {:induction false} UploadAlone(s: State, o: OpId, u: Upload, file: string, uploads: nat, fileName: nat -> string)
    returns (labels: seq<Label>)
    requires o !in s.ops && file !in s.files && fileName(uploads) == file
    ensures Behaviour(s, labels)
    ensures Stored(Final(s, labels).rows, uploads + |Final(s, labels).files - s.files|) == Uploaded(Stored(s.rows, uploads), u, fileName)
  {
    TwoSteps(s, StartUpload(o, u), Lookup(o));
    labels := [StartUpload(o, u), Lookup(o)];
    var s2 := Final(s, labels);
    if FindByNameSha(s.rows, u.name, u.sha).None? {
      var s3 := Do(s2, StoreFile(o, file));
      assert [StoreFile(o, file)][1..] == [] && Behaviour(s3, []);
      assert Behaviour(s2, [StoreFile(o, file)]) && Final(s2, [StoreFile(o, file)]) == s3;
      BehaviourConcat(s, labels, [StoreFile(o, file)]);
      labels := labels + [StoreFile(o, file)];
      s2 := s3;
      assert s2.files - s.files == {file};
    } else {
      assert s2.files - s.files == {};
    }
    var inserts := InsertAlone(s2, o);
    BehaviourConcat(s, labels, inserts);
    labels := labels + inserts;
  }

  class Store {
    var rows: Rows
    var uploads: nat
    var runs: set<string>
    var experiments: set<string>
    const fileName: nat -> string

    constructor (fileName: nat -> string)
      ensures Valid() && rows == [] && uploads == 0 && runs == {} && experiments == {} && this.fileName == fileName
    {
      rows, uploads, runs, experiments := [], 0, {}, {};
      this.fileName := fileName;
    }

    function Contents(): Stored
      reads this
    {
      Stored(rows, uploads)
    }

    /** Only registrable rows get in. */
    predicate Valid()
      reads this`rows
    {
      forall r | r in rows :: ValidUri(r.uri)
    }

    /** The row's parent is stored. */
    predicate ParentKnown(row: Artifact)
      reads this`runs, this`experiments
    {
      if row.run.Some? then row.run.value in runs else row.experiment.Some? && row.experiment.value in experiments
    }

    /** Exactly one parent and a URI of a known scheme are required, and the parent
        must exist; then the insert succeeds at the first attempt, or at the second
        one as used. */
    method RegisterArtifact(row: Artifact) returns (res: Result<Artifact, ServiceError>)
      requires Valid()
      modifies this`rows
      ensures Valid()
      ensures res == Err(Invalid) <==> !Registrable(row)
      ensures res.Ok? ==>
        && (row.run.Some? <==> row.experiment.None?)
        && (|| "s3://" <= row.uri || "gdrive://" <= row.uri || "https://" <= row.uri || "http://" <= row.uri
            || "git+https://" <= row.uri || "git+http://" <= row.uri || "git+ssh://" <= row.uri || "hf://" <= row.uri)
      ensures res == Err(NotFound) <==> Registrable(row) && !ParentKnown(row)
      ensures res.Ok? <==> Registrable(row) && ParentKnown(row)
      ensures res.Err? ==> rows == old(rows)
      ensures res.Ok? ==> rows == Registered(old(rows), row) && RegisterAnswer(old(rows), rows, row) && res.value == rows[|rows| - 1]
    {
      if row.run.None? == row.experiment.None? { return Err(Invalid); }
      if !ValidUri(row.uri) { return Err(Invalid); }
      if row.run.Some? {
        if row.run.value !in runs { return Err(NotFound); }
      } else {
        if row.experiment.value !in experiments { return Err(NotFound); }
      }
      RegisterInColumns(rows, row);
      if Violates(rows, row) {
        rows := rows + [row.(role := Used)];
      } else {
        rows := rows + [row];
      }
      return Ok(rows[|rows| - 1]);
    }

    /** Reuses stored content, uploads new content, and registers the row. */
    method UploadOrDedup(u: Upload) returns (row: Artifact)
      requires Valid() && u.run in runs
      modifies this`rows, this`uploads
      ensures Valid()
      ensures Contents() == Uploaded(old(Contents()), u, fileName)
      ensures UploadAnswer(old(Contents()), Contents(), u, fileName)
      ensures rows != [] && row == rows[|rows| - 1]
    {
      var existing := FindByNameSha(rows, u.name, u.sha);
      FindByNameShaFinds(rows, u.name, u.sha);
      UploadInColumns(Contents(), u, fileName);
      var data: Artifact;
      if existing.Some? {
        data := RowForHit(u, existing.value);
      } else {
        var file := fileName(uploads);
        uploads := uploads + 1;
        data := RowForMiss(u, file);
      }
      var res := RegisterArtifact(data);
      row := res.value;
    }

    /** Every item is decoded before anything is uploaded. */
    method UploadBatch(run: string, items: seq<Item>) returns (res: Result<seq<Artifact>, nat>)
      requires Valid() && run in runs
      modifies this`rows, this`uploads
      ensures Valid()
      ensures res.Err? <==> exists i :: 0 <= i < |items| && items[i].decodedSha.None?
      ensures res.Err? ==>
        && Contents() == old(Contents())
        && res.error < |items| && items[res.error].decodedSha.None?
        && forall i | 0 <= i < res.error :: items[i].decodedSha.Some?
      ensures res.Ok? ==>
        && Contents() == UploadedAll(old(Contents()), ToUploads(run, items), fileName)
        && |res.value| == |items|
        && old(rows) + res.value == rows
        && forall i | 0 <= i < |items| ::
             res.value[i].run == Some(run) && res.value[i].name == Some(items[i].name) && res.value[i].sha256 == items[i].decodedSha
    {
      var decoded := DecodeAll(run, items);
      if decoded.Err? { return Err(decoded.error); }
      RowForEach(Contents(), decoded.value, fileName);
      var results := UploadEach(decoded.value);
      forall i | 0 <= i < |items| ensures RowFor(results[i], decoded.value[i]) {
        assert results[i] == (old(rows) + results)[|old(rows)| + i];
      }
      return Ok(results);
    }

    /** The decoding loop: stops at the first undecodable item. */
    static method DecodeAll(run: string, items: seq<Item>) returns (res: Result<seq<Upload>, nat>)
      ensures res.Err? ==>
        && res.error < |items| && items[res.error].decodedSha.None?
        && forall i | 0 <= i < res.error :: items[i].decodedSha.Some?
      ensures res.Ok? ==> (forall i | 0 <= i < |items| :: items[i].decodedSha.Some?) && res.value == ToUploads(run, items)
      ensures res.Ok? ==> |res.value| == |items| && forall i | 0 <= i < |items| ::
                var u := res.value[i];
                && u.run == run && Some(u.sha) == items[i].decodedSha && u.name == items[i].name
                && u.filename == items[i].filename && u.meta == items[i].meta && u.role == items[i].role
    {
      var index := 0;
      var decoded: seq<Upload> := [];
      while index < |items|
        invariant 0 <= index <= |items| && |decoded| == index
        invariant forall i | 0 <= i < index :: items[i].decodedSha.Some? && decoded[i] == ToUpload(run, items[i])
      {
        if items[index].decodedSha.None? { return Err(index); }
        decoded := decoded + [ToUpload(run, items[index])];
        index := index + 1;
      }
      return Ok(decoded);
    }

    /** The upload loop: each item in turn, against all the earlier ones. */
    method UploadEach(us: seq<Upload>) returns (results: seq<Artifact>)
      requires Valid() && forall i | 0 <= i < |us| :: us[i].run in runs
      modifies this`rows, this`uploads
      ensures Valid()
      ensures Contents() == UploadedAll(old(Contents()), us, fileName)
      ensures |results| == |us| && old(rows) + results == rows
    {
      results := [];
      var i := 0;
      while i < |us|
        invariant 0 <= i <= |us| && |results| == i && Valid()
        invariant Contents() == UploadedAll(old(Contents()), us[..i], fileName)
        invariant old(rows) + results == rows
      {
        assert us[..i + 1][..i] == us[..i];
        ghost var before := rows;
        var row := UploadOrDedup(us[i]);
        assert rows == before + [row];
        results := results + [row];
        i := i + 1;
      }
      assert us[..|us|] == us;
    }
  }

  // ----- Uploads count distinct content -----

  function Pairs(us: seq<Upload>): set<(string, string)> {
    set u | u in us :: (u.name, u.sha)
  }

  /** The (name, sha256) pairs stored in a table. */
  function StoredPairs(rows: Rows): set<(string, string)> {
    set r | r in rows && r.name.Some? && r.sha256.Some? :: (r.name.value, r.sha256.value)
  }

  /** An upload adds one row of its pair, and a file only for a pair not stored yet. */
  lemma {:induction false} UploadShape(st: Stored, u: Upload, fileName: nat -> string)
    ensures var st' := Uploaded(st, u, fileName);
      && |st'.rows| == |st.rows| + 1 && st'.rows[..|st.rows|] == st.rows
      && StoredPairs(st'.rows) == StoredPairs(st.rows) + {(u.name, u.sha)}
      && st'.uploads == st.uploads + if (u.name, u.sha) in StoredPairs(st.rows) then 0 else 1
  {
    FindByNameShaFinds(st.rows, u.name, u.sha);
    var st' := Uploaded(st, u, fileName);
    var last := st'.rows[|st.rows|];
    assert MatchesNameSha(last, u.name, u.sha);
    PairsOfAppend(st.rows, last);
    assert st'.rows == st.rows + [last];
    PairStored(st.rows, u.name, u.sha);
  }

  lemma {:induction false} PairsOfAppend(rows: Rows, r: Artifact)
    requires r.name.Some? && r.sha256.Some?
    ensures StoredPairs(rows + [r]) == StoredPairs(rows) + {(r.name.value, r.sha256.value)}
  {
    assert forall x :: x in rows + [r] <==> x in rows || x == r;
  }

  lemma {:induction false} PairStored(rows: Rows, name: string, sha: string)
    ensures (name, sha) in StoredPairs(rows) <==> exists i :: 0 <= i < |rows| && MatchesNameSha(rows[i], name, sha)
  {
    if (name, sha) in StoredPairs(rows) {
      var r :| r in rows && r.name.Some? && r.sha256.Some? && (r.name.value, r.sha256.value) == (name, sha);
      var i :| 0 <= i < |rows| && rows[i] == r;
      assert MatchesNameSha(rows[i], name, sha);
    }
  }

  lemma {:induction false} UploadsStorePairs(us: seq<Upload>, fileName: nat -> string)
    ensures var st := UploadedAll(Stored([], 0), us, fileName);
      StoredPairs(st.rows) == Pairs(us) && st.uploads == |Pairs(us)|
    decreases |us|
  {
    if us != [] {
      var init, u := us[..|us| - 1], us[|us| - 1];
      UploadsStorePairs(init, fileName);
      UploadShape(UploadedAll(Stored([], 0), init, fileName), u, fileName);
      PairsAppend(init, u);
      assert us == init + [u];
      OneMore(Pairs(init), (u.name, u.sha));
    }
  }

  lemma {:induction false} OneMore<T>(s: set<T>, x: T)
    ensures |s + {x}| == |s| + if x in s then 0 else 1
  {
    if x in s { assert s + {x} == s; }
  }

  lemma {:induction false} PairsAppend(init: seq<Upload>, u: Upload)
    ensures Pairs(init + [u]) == Pairs(init) + {(u.name, u.sha)}
  {
  }

  /** Uploading from an empty store, alone or in batches, with any roles and meta,
      puts one file on Drive per distinct (name, sha256) pair and one row per upload. */
  lemma {:induction false} UploadsAreDistinctPairs(batches: seq<seq<Upload>>, fileName: nat -> string)
    ensures var us := Flatten(batches);
      var st := AllBatches(Stored([], 0), batches, fileName);
      st.uploads == |Pairs(us)| && |st.rows| == |us|
  {
    BatchesAreFlat(Stored([], 0), batches, fileName);
    UploadsStorePairs(Flatten(batches), fileName);
    RowPerUpload(Stored([], 0), Flatten(batches), fileName);
  }

  function Flatten(batches: seq<seq<Upload>>): seq<Upload> {
    if batches == [] then [] else batches[0] + Flatten(batches[1..])
  }

  function AllBatches(st: Stored, batches: seq<seq<Upload>>, fileName: nat -> string): Stored
    decreases |batches|
  {
    if batches == [] then st else AllBatches(UploadedAll(st, batches[0], fileName), batches[1..], fileName)
  }

  lemma {:induction false} UploadedConcat(st: Stored, a: seq<Upload>, b: seq<Upload>, fileName: nat -> string)
    ensures UploadedAll(st, a + b, fileName) == UploadedAll(UploadedAll(st, a, fileName), b, fileName)
    decreases |b|
  {
    if b == [] {
      assert a + b == a;
    } else {
      UploadedConcat(st, a, b[..|b| - 1], fileName);
      assert (a + b)[..|a + b| - 1] == a + b[..|b| - 1];
    }
  }

  lemma {:induction false} BatchesAreFlat(st: Stored, batches: seq<seq<Upload>>, fileName: nat -> string)
    ensures AllBatches(st, batches, fileName) == UploadedAll(st, Flatten(batches), fileName)
    decreases |batches|
  {
    if batches != [] {
      BatchesAreFlat(UploadedAll(st, batches[0], fileName), batches[1..], fileName);
      UploadedConcat(st, batches[0], Flatten(batches[1..]), fileName);
    }
  }

  lemma {:induction false} RowPerUpload(st: Stored, us: seq<Upload>, fileName: nat -> string)
    ensures |UploadedAll(st, us, fileName).rows| == |st.rows| + |us|
    decreases |us|
  {
    if us != [] { RowPerUpload(st, us[..|us| - 1], fileName); }
  }
}
