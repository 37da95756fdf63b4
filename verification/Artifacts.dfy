/** Content-addressed artifacts. */
module Artifacts {
  // service/artifacts.py, rest/artifacts.py and the two partial unique indexes of migrations
  // 005 and 008.

  import opened Common

  datatype Role = Produced | Used

  type Meta = map<string, string>

  /** Exactly one of `run` and `experiment` is set on a stored row. */
  datatype Artifact = Artifact(
    run: Option<string>,
    experiment: Option<string>,
    uri: string,
    sha256: Option<string>,
    meta: Meta,
    name: Option<string>,
    role: Role)

  /** The artifact table in insertion order; a row's id is its position. */
  type Rows = seq<Artifact>

  /** What a named artifact's content is addressed by. */
  datatype Content = NameSha(name: string, sha: string) | NameUri(name: string, uri: string)

  function ContentOf(a: Artifact): Option<Content> {
    if a.name.None? then None
    else if a.sha256.Some? then Some(NameSha(a.name.value, a.sha256.value))
    else Some(NameUri(a.name.value, a.uri))
  }

  /** idx_artifact_produced_name_sha_unique: NULLs never collide. */
  predicate CollidesOnSha(r: Artifact, a: Artifact) {
    && r.role.Produced? && a.role.Produced?
    && r.name.Some? && a.name.Some? && r.name.value == a.name.value
    && r.sha256.Some? && a.sha256.Some? && r.sha256.value == a.sha256.value
  }

  /** idx_artifact_produced_name_uri_unique: only rows without a sha256. */
  predicate CollidesOnUri(r: Artifact, a: Artifact) {
    && r.role.Produced? && a.role.Produced?
    && r.name.Some? && a.name.Some? && r.name.value == a.name.value
    && r.sha256.None? && a.sha256.None? && r.uri == a.uri
  }

  predicate Violates(rows: Rows, a: Artifact) {
    exists i :: 0 <= i < |rows| && (CollidesOnSha(rows[i], a) || CollidesOnUri(rows[i], a))
  }

  /** Together the two indexes keep one produced row per content and never overlap. */
  lemma {:induction false} IndexesCoverContent(r: Artifact, a: Artifact)
    ensures CollidesOnSha(r, a) || CollidesOnUri(r, a)
            <==> r.role.Produced? && a.role.Produced? && ContentOf(r).Some? && ContentOf(r) == ContentOf(a)
    ensures !(CollidesOnSha(r, a) && CollidesOnUri(r, a))
  {
  }

  function ProducedCount(rows: Rows, c: Content): nat {
    if rows == [] then 0 else
      ProducedCount(rows[..|rows| - 1], c)
      + if rows[|rows| - 1].role.Produced? && ContentOf(rows[|rows| - 1]) == Some(c) then 1 else 0
  }

  lemma {:induction false} CountIsZero(rows: Rows, c: Content)
    ensures ProducedCount(rows, c) == 0
            <==> forall i | 0 <= i < |rows| :: !(rows[i].role.Produced? && ContentOf(rows[i]) == Some(c))
    decreases |rows|
  {
    if rows != [] {
      var init := rows[..|rows| - 1];
      CountIsZero(init, c);
      assert forall i | 0 <= i < |rows| :: rows[i] == if i < |init| then init[i] else rows[|rows| - 1];
    }
  }

  lemma {:induction false} ViolationIsProducedContent(rows: Rows, a: Artifact)
    ensures Violates(rows, a) <==>
              a.role.Produced? && ContentOf(a).Some? && ProducedCount(rows, ContentOf(a).value) > 0
  {
    if ContentOf(a).Some? { CountIsZero(rows, ContentOf(a).value); }
    forall i | 0 <= i < |rows| ensures CollidesOnSha(rows[i], a) || CollidesOnUri(rows[i], a)
            <==> rows[i].role.Produced? && a.role.Produced? && ContentOf(rows[i]).Some? && ContentOf(rows[i]) == ContentOf(a)
    {
      IndexesCoverContent(rows[i], a);
    }
  }

  // ----- The dedup lookup -----

  predicate MatchesNameSha(a: Artifact, name: string, sha: string) {
    a.name == Some(name) && a.sha256 == Some(sha)
  }

  function FirstMatch(rows: Rows, name: string, sha: string, producedOnly: bool): Option<Artifact> {
    if rows == [] then None
    else if MatchesNameSha(rows[0], name, sha) && (producedOnly ==> rows[0].role.Produced?) then Some(rows[0])
    else FirstMatch(rows[1..], name, sha, producedOnly)
  }

  /** The produced row when there is one, else the oldest row of the pair. */
  function FindByNameSha(rows: Rows, name: string, sha: string): Option<Artifact> {
    var produced := FirstMatch(rows, name, sha, true);
    if produced.Some? then produced else FirstMatch(rows, name, sha, false)
  }

  lemma {:induction false} FirstMatchFinds(rows: Rows, name: string, sha: string, producedOnly: bool)
    ensures var m := FirstMatch(rows, name, sha, producedOnly);
      && (m.Some? <==> exists i :: 0 <= i < |rows| && MatchesNameSha(rows[i], name, sha) && (producedOnly ==> rows[i].role.Produced?))
      && (m.Some? ==> m.value in rows && MatchesNameSha(m.value, name, sha) && (producedOnly ==> m.value.role.Produced?))
  {
    if rows != [] {
      FirstMatchFinds(rows[1..], name, sha, producedOnly);
      assert forall i | 0 < i < |rows| :: rows[i] == rows[1..][i - 1];
      assert forall i | 0 <= i < |rows[1..]| :: rows[1..][i] == rows[i + 1];
    }
  }

  /** The lookup hits exactly when the pair is stored, and then prefers its
      produced row. */
  lemma {:induction false} FindByNameShaFinds(rows: Rows, name: string, sha: string)
    ensures var m := FindByNameSha(rows, name, sha);
      && (m.Some? <==> exists i :: 0 <= i < |rows| && MatchesNameSha(rows[i], name, sha))
      && (m.Some? ==> m.value in rows && MatchesNameSha(m.value, name, sha))
      && (m.Some? && m.value.role.Used? ==> ProducedCount(rows, NameSha(name, sha)) == 0)
  {
    FirstMatchFinds(rows, name, sha, true);
    FirstMatchFinds(rows, name, sha, false);
    CountIsZero(rows, NameSha(name, sha));
  }

  // ----- Uploads -----

  const GDRIVE: string := "gdrive://"
  const DRIVE_URL_KEY: string := "drive_url"
  const SOURCE_PATH_KEY: string := "source_path"

  function DriveUrl(file: string): string {
    "https://drive.google.com/file/d/" + file + "/view"
  }

  datatype Upload = Upload(run: string, name: string, sha: string, filename: string, meta: Meta, role: Option<Role>)

  /** The row for content stored before: its uri and its drive_url are reused. */
  function RowForHit(u: Upload, existing: Artifact): Artifact {
    var meta := u.meta[SOURCE_PATH_KEY := u.filename];
    var pinned := if DRIVE_URL_KEY in existing.meta then meta[DRIVE_URL_KEY := existing.meta[DRIVE_URL_KEY]] else meta;
    Artifact(Some(u.run), None, existing.uri, Some(u.sha), pinned, Some(u.name),
             if u.role.Some? then u.role.value else Used)
  }

  /** The row for content just uploaded as Drive file `file`. */
  function RowForMiss(u: Upload, file: string): Artifact {
    Artifact(Some(u.run), None, GDRIVE + file, Some(u.sha),
             u.meta[DRIVE_URL_KEY := DriveUrl(file)][SOURCE_PATH_KEY := u.filename], Some(u.name),
             if u.role.Some? then u.role.value else Produced)
  }

  /** The row's drive_url is the one derived from its own gdrive uri. */
  predicate UrlDerived(a: Artifact) {
    && GDRIVE <= a.uri
    && DRIVE_URL_KEY in a.meta && a.meta[DRIVE_URL_KEY] == DriveUrl(a.uri[|GDRIVE|..])
  }

  lemma {:induction false} MissIsDerived(u: Upload, file: string)
    ensures UrlDerived(RowForMiss(u, file))
  {
    assert (GDRIVE + file)[|GDRIVE|..] == file;
    assert SOURCE_PATH_KEY[0] != DRIVE_URL_KEY[0];
  }

  lemma {:induction false} HitInheritsUrl(u: Upload, existing: Artifact)
    requires UrlDerived(existing)
    ensures UrlDerived(RowForHit(u, existing))
  {
  }

  /** The URI schemes a registration may use. */
  predicate ValidUri(uri: string) {
    || "s3://" <= uri || GDRIVE <= uri || "https://" <= uri || "http://" <= uri
    || "git+https://" <= uri || "git+http://" <= uri || "git+ssh://" <= uri || "hf://" <= uri
  }

  /** What register_artifact accepts: exactly one parent, and such a URI. */
  predicate Registrable(row: Artifact) {
    (row.run.Some? <==> row.experiment.None?) && ValidUri(row.uri)
  }

  // ----- Interleaved operations -----

  type OpId = nat

  /** How far an operation has come. Inserting is the first INSERT, Retrying the
      second one after a unique violation. */
  datatype Op =
    | LookingUp(request: Upload)
    | UploadingFile(request: Upload)
    | Inserting(row: Artifact, upload: bool)
    | Retrying(row: Artifact, upload: bool)

  /** `asked` are the contents some INSERT so far has tried to produce, `uploaded` the
      positions of the rows that upload calls inserted. */
  datatype State = State(rows: Rows, files: set<string>, ops: map<OpId, Op>, asked: set<Content>, uploaded: set<nat>)

  datatype Label =
    | StartUpload(o: OpId, upload: Upload)
    | StartRegister(o: OpId, row: Artifact)
    | Lookup(o: OpId)
    | StoreFile(o: OpId, file: string)
    | Insert(o: OpId)
    | Crash(o: OpId)

  predicate Enabled(s: State, l: Label) {
    match l
    case StartUpload(o, _) => o !in s.ops
    case StartRegister(o, row) => o !in s.ops && Registrable(row)
    case Lookup(o) => o in s.ops && s.ops[o].LookingUp?
    case StoreFile(o, file) => o in s.ops && s.ops[o].UploadingFile? && file !in s.files
    case Insert(o) => o in s.ops && (s.ops[o].Inserting? || s.ops[o].Retrying?)
    case Crash(o) => o in s.ops
  }

  function Asking(s: State, row: Artifact): set<Content> {
    if row.role.Produced? && ContentOf(row).Some? then s.asked + {ContentOf(row).value} else s.asked
  }

  function Do(s: State, l: Label): State
    requires Enabled(s, l)
  {
    match l
    case StartUpload(o, upload) => s.(ops := s.ops[o := LookingUp(upload)])
    case StartRegister(o, row) => s.(ops := s.ops[o := Inserting(row, false)])
    case Lookup(o) =>
      var u := s.ops[o].request;
      var existing := FindByNameSha(s.rows, u.name, u.sha);
      s.(ops := s.ops[o := if existing.Some? then Inserting(RowForHit(u, existing.value), true) else UploadingFile(u)])
    case StoreFile(o, file) =>
      s.(files := s.files + {file}, ops := s.ops[o := Inserting(RowForMiss(s.ops[o].request, file), true)])
    case Insert(o) =>
      var row := s.ops[o].row;
      if Violates(s.rows, row)
      then s.(ops := s.ops[o := Retrying(row.(role := Used), s.ops[o].upload)], asked := Asking(s, row))
      else s.(rows := s.rows + [row], ops := s.ops - {o}, asked := Asking(s, row),
              uploaded := if s.ops[o].upload then s.uploaded + {|s.rows|} else s.uploaded)
    case Crash(o) => s.(ops := s.ops - {o})
  }

  predicate Behaviour(s: State, labels: seq<Label>)
    decreases |labels|
  {
    labels == [] || (Enabled(s, labels[0]) && Behaviour(Do(s, labels[0]), labels[1..]))
  }

  function Final(s: State, labels: seq<Label>): State
    requires Behaviour(s, labels)
    decreases |labels|
  {
    if labels == [] then s else Final(Do(s, labels[0]), labels[1..])
  }

  const EMPTY: State := State([], {}, map[], {}, {})

  /** One produced row per content some INSERT tried to produce, none for others;
      and a retry is always a used row. */
  ghost predicate Inv(s: State) {
    && (forall c :: ProducedCount(s.rows, c) == if c in s.asked then 1 else 0)
    && (forall o | o in s.ops && s.ops[o].Retrying? :: s.ops[o].row.role.Used?)
  }

  lemma {:induction false} CountAppend(rows: Rows, row: Artifact, c: Content)
    ensures ProducedCount(rows + [row], c)
         == ProducedCount(rows, c) + if row.role.Produced? && ContentOf(row) == Some(c) then 1 else 0
  {
    assert (rows + [row])[..|rows|] == rows;
  }

  lemma {:induction false} StepKeepsInv(s: State, l: Label)
    requires Inv(s) && Enabled(s, l)
    ensures Inv(Do(s, l))
  {
    if l.Insert? {
      var row := s.ops[l.o].row;
      ViolationIsProducedContent(s.rows, row);
      var s' := Do(s, l);
      forall c ensures ProducedCount(s'.rows, c) == if c in s'.asked then 1 else 0 {
        CountAppend(s.rows, row, c);
      }
    }
  }

  lemma {:induction false} BehaviourKeepsInv(s: State, labels: seq<Label>)
    requires Inv(s) && Behaviour(s, labels)
    ensures Inv(Final(s, labels))
    decreases |labels|
  {
    if labels != [] {
      StepKeepsInv(s, labels[0]);
      BehaviourKeepsInv(Do(s, labels[0]), labels[1..]);
    }
  }

  /** Over every interleaving and any roles the callers pass: a content has one
      produced row if some registration asked to produce it, and none otherwise. */
  lemma {:induction false} OneProducedRowPerAskedContent(labels: seq<Label>, c: Content)
    requires Behaviour(EMPTY, labels)
    ensures ProducedCount(Final(EMPTY, labels).rows, c) == if c in Final(EMPTY, labels).asked then 1 else 0
  {
    BehaviourKeepsInv(EMPTY, labels);
  }

  /** Every registration succeeds within two INSERTs: the retry never violates an index. */
  lemma {:induction false} TwoInsertsSuffice(labels: seq<Label>, o: OpId)
    requires Behaviour(EMPTY, labels)
    requires Enabled(Final(EMPTY, labels), Insert(o))
    ensures var s := Final(EMPTY, labels);
      var s' := Do(s, Insert(o));
      if o in s'.ops then s.ops[o].Inserting? && s'.ops[o].Retrying? && Violates(s.rows, s.ops[o].row)
      else s'.rows == s.rows + [s.ops[o].row]
  {
    BehaviourKeepsInv(EMPTY, labels);
  }

  /** Callers that leave roles to their defaults: uploads infer theirs, plain
      registrations ask to produce. */
  predicate DefaultRoles(l: Label) {
    && (l.StartUpload? ==> l.upload.role.None?)
    && (l.StartRegister? ==> l.row.role.Produced?)
  }

  predicate RowAsked(s: State, a: Artifact) {
    ContentOf(a).Some? ==> ContentOf(a).value in s.asked
  }

  predicate DefaultInv(s: State) {
    && (forall i | 0 <= i < |s.rows| :: RowAsked(s, s.rows[i]))
    && (forall o | o in s.ops ::
          match s.ops[o]
          case LookingUp(u) => u.role.None?
          case UploadingFile(u) => u.role.None?
          case Inserting(row, _) => row.role.Produced? || RowAsked(s, row)
          case Retrying(row, _) => RowAsked(s, row))
  }

  lemma {:induction false} DefaultStep(s: State, l: Label)
    requires DefaultInv(s) && Enabled(s, l) && DefaultRoles(l)
    ensures DefaultInv(Do(s, l))
  {
    if l.Lookup? {
      var u := s.ops[l.o].request;
      FindByNameShaFinds(s.rows, u.name, u.sha);
      var existing := FindByNameSha(s.rows, u.name, u.sha);
      if existing.Some? {
        var i :| 0 <= i < |s.rows| && s.rows[i] == existing.value;
        assert RowAsked(s, s.rows[i]);
      }
    }
  }

  lemma {:induction false} BehaviourKeepsDefault(s: State, labels: seq<Label>)
    requires DefaultInv(s) && Behaviour(s, labels) && forall l | l in labels :: DefaultRoles(l)
    ensures DefaultInv(Final(s, labels))
    decreases |labels|
  {
    if labels != [] {
      assert labels[0] in labels;
      DefaultStep(s, labels[0]);
      BehaviourKeepsDefault(Do(s, labels[0]), labels[1..]);
    }
  }

  /** With default roles, over every interleaving of lookups, uploads, inserts,
      retries and crashes, each content that has a row has exactly one produced row. */
  lemma {:induction false} ExactlyOneProduced(labels: seq<Label>, i: nat)
    requires Behaviour(EMPTY, labels) && forall l | l in labels :: DefaultRoles(l)
    requires i < |Final(EMPTY, labels).rows| && ContentOf(Final(EMPTY, labels).rows[i]).Some?
    ensures var rows := Final(EMPTY, labels).rows;
      ProducedCount(rows, ContentOf(rows[i]).value) == 1
  {
    BehaviourKeepsInv(EMPTY, labels);
    BehaviourKeepsDefault(EMPTY, labels);
    assert RowAsked(Final(EMPTY, labels), Final(EMPTY, labels).rows[i]);
  }

  lemma {:induction false} BehaviourConcat(s: State, a: seq<Label>, b: seq<Label>)
    requires Behaviour(s, a) && Behaviour(Final(s, a), b)
    ensures Behaviour(s, a + b) && Final(s, a + b) == Final(Final(s, a), b)
    decreases |a|
  {
    if a == [] {
      assert a + b == b;
    } else {
      BehaviourConcat(Do(s, a[0]), a[1..], b);
      assert (a + b)[1..] == a[1..] + b;
    }
  }

  lemma {:induction false} TwoSteps(s: State, a: Label, b: Label)
    requires Enabled(s, a) && Enabled(Do(s, a), b)
    ensures Behaviour(s, [a, b]) && Final(s, [a, b]) == Do(Do(s, a), b)
  {
    assert [a, b][1..] == [b] && [b][1..] == [];
    assert Behaviour(Do(Do(s, a), b), []);
    assert Behaviour(Do(s, a), [b]) && Final(Do(s, a), [b]) == Do(Do(s, a), b);
  }

  /** After any history, registering content that nobody has asked to produce under
      an explicit `used` role leaves it with a row and without a produced one. */
  lemma {:induction false} ExplicitUsedHasNoProducer(labels: seq<Label>, o: OpId, row: Artifact)
    requires Behaviour(EMPTY, labels) && Enabled(Final(EMPTY, labels), StartRegister(o, row))
    requires row.role.Used? && ContentOf(row).Some? && ContentOf(row).value !in Final(EMPTY, labels).asked
    ensures var longer := labels + [StartRegister(o, row), Insert(o)];
      && Behaviour(EMPTY, longer)
      && Final(EMPTY, longer).rows == Final(EMPTY, labels).rows + [row]
      && ProducedCount(Final(EMPTY, longer).rows, ContentOf(row).value) == 0
  {
    var s := Final(EMPTY, labels);
    TwoSteps(s, StartRegister(o, row), Insert(o));
    BehaviourConcat(EMPTY, labels, [StartRegister(o, row), Insert(o)]);
    OneProducedRowPerAskedContent(labels + [StartRegister(o, row), Insert(o)], ContentOf(row).value);
  }

  // ----- drive_url -----

  /** What an upload can find: a row with both a name and a sha256. */
  predicate Findable(a: Artifact) { a.name.Some? && a.sha256.Some? }

  /** Registrations keep to `allowed`; uploads are free. */
  ghost predicate RegistersOnly(labels: seq<Label>, allowed: Artifact -> bool) {
    forall l | l in labels && l.StartRegister? :: allowed(l.row)
  }

  ghost predicate PinsOwnUrl(allowed: Artifact -> bool) {
    forall row | allowed(row) && Registrable(row) && Findable(row) :: UrlDerived(row)
  }

  predicate UrlInv(s: State) {
    && (forall i | 0 <= i < |s.rows| && Findable(s.rows[i]) :: UrlDerived(s.rows[i]))
    && (forall i | i in s.uploaded :: i < |s.rows| && Findable(s.rows[i]))
    && (forall o | o in s.ops && (s.ops[o].Inserting? || s.ops[o].Retrying?) ::
          && (Findable(s.ops[o].row) ==> UrlDerived(s.ops[o].row))
          && (s.ops[o].upload ==> Findable(s.ops[o].row)))
  }

  lemma {:induction false} UrlStep(s: State, l: Label)
    requires UrlInv(s) && Enabled(s, l) && (l.StartRegister? && Findable(l.row) ==> UrlDerived(l.row))
    ensures UrlInv(Do(s, l))
  {
    match l
    case Lookup(o) =>
      var u := s.ops[o].request;
      FindByNameShaFinds(s.rows, u.name, u.sha);
      var existing := FindByNameSha(s.rows, u.name, u.sha);
      if existing.Some? { HitInheritsUrl(u, existing.value); }
    case StoreFile(o, file) => MissIsDerived(s.ops[o].request, file);
    case _ =>
  }

  lemma {:induction false} BehaviourKeepsUrls(s: State, labels: seq<Label>, allowed: Artifact -> bool)
    requires UrlInv(s) && Behaviour(s, labels) && RegistersOnly(labels, allowed) && PinsOwnUrl(allowed)
    ensures UrlInv(Final(s, labels))
    decreases |labels|
  {
    if labels != [] {
      assert labels[0] in labels;
      UrlStep(s, labels[0]);
      BehaviourKeepsUrls(Do(s, labels[0]), labels[1..], allowed);
    }
  }

  /** Every row an upload call inserted has the drive_url of its own gdrive uri. */
  predicate UploadsPinned(s: State) {
    forall i | i in s.uploaded :: i < |s.rows| && UrlDerived(s.rows[i])
  }

  lemma {:induction false} RegisterFirst(row: Artifact)
    requires Registrable(row)
    ensures Behaviour(EMPTY, [StartRegister(0, row), Insert(0)])
    ensures Final(EMPTY, [StartRegister(0, row), Insert(0)]) == State([row], {}, map[], Asking(EMPTY, row), {})
  {
    TwoSteps(EMPTY, StartRegister(0, row), Insert(0));
  }

  /** An upload of content whose only row is `row`. */
  lemma {:induction false} UploadHits(s: State, row: Artifact, u: Upload)
    requires s.rows == [row] && s.ops == map[] && s.uploaded == {}
    requires MatchesNameSha(row, u.name, u.sha) && u.role != Some(Produced)
    ensures Behaviour(s, [StartUpload(1, u), Lookup(1), Insert(1)])
    ensures var s' := Final(s, [StartUpload(1, u), Lookup(1), Insert(1)]);
      s'.rows == [row, RowForHit(u, row)] && s'.uploaded == {1}
  {
    var hit := RowForHit(u, row);
    assert MatchesNameSha(s.rows[0], u.name, u.sha);
    FindByNameShaFinds(s.rows, u.name, u.sha);
    var s1 := Do(s, StartUpload(1, u));
    assert s1.ops == map[1 := LookingUp(u)];
    TwoSteps(s1, Lookup(1), Insert(1));
    assert Do(s1, Lookup(1)).ops == map[1 := Inserting(hit, true)];
    assert !Violates(s.rows, hit);
    assert [StartUpload(1, u), Lookup(1), Insert(1)][1..] == [Lookup(1), Insert(1)];
  }

  /** A registration with both a name and a sha256 hands its drive_url, whatever it
      is, on to the next upload of that content; without one it leaves the field to
      the uploader. So the upload's row is pinned only if the registered one is. */
  lemma {:induction false} RegisteredUrlIsInherited(row: Artifact, u: Upload) returns (labels: seq<Label>)
    requires Registrable(row) && Findable(row)
    requires u.name == row.name.value && u.sha == row.sha256.value && u.role != Some(Produced)
    ensures labels == [StartRegister(0, row), Insert(0)] + [StartUpload(1, u), Lookup(1), Insert(1)]
    ensures Behaviour(EMPTY, labels)
    ensures var s := Final(EMPTY, labels);
      && |s.rows| == 2 && s.uploaded == {1}
      && s.rows[1].uri == row.uri
      && (DRIVE_URL_KEY in row.meta ==>
            DRIVE_URL_KEY in s.rows[1].meta && s.rows[1].meta[DRIVE_URL_KEY] == row.meta[DRIVE_URL_KEY])
      && (DRIVE_URL_KEY !in u.meta && UrlDerived(s.rows[1]) ==> UrlDerived(row))
  {
    labels := [StartRegister(0, row), Insert(0)] + [StartUpload(1, u), Lookup(1), Insert(1)];
    RegisterFirst(row);
    var s2 := Final(EMPTY, [StartRegister(0, row), Insert(0)]);
    UploadHits(s2, row, u);
    BehaviourConcat(EMPTY, [StartRegister(0, row), Insert(0)], [StartUpload(1, u), Lookup(1), Insert(1)]);
    HitPinnedExactly(u, row);
  }

  /** In every interleaving of uploads and registrations, whatever meta and roles the
      uploaders pass, each uploaded row's drive_url is the one derived from its own
      gdrive uri, as long as whoever registers a row with both a name and a sha256
      gives it such a drive_url. */
  lemma {:induction false} DriveUrlIsPinned(labels: seq<Label>, allowed: Artifact -> bool)
    requires Behaviour(EMPTY, labels) && RegistersOnly(labels, allowed) && PinsOwnUrl(allowed)
    ensures UploadsPinned(Final(EMPTY, labels))
    ensures forall i | 0 <= i < |Final(EMPTY, labels).rows| && Findable(Final(EMPTY, labels).rows[i]) ::
              UrlDerived(Final(EMPTY, labels).rows[i])
  {
    BehaviourKeepsUrls(EMPTY, labels, allowed);
  }

  /** That condition on registrations is exact: any other row that may be registered
      spoils the drive_url of some upload. */
  lemma {:induction false} UploadsPinnedExactly(allowed: Artifact -> bool)
    ensures (forall labels | Behaviour(EMPTY, labels) && RegistersOnly(labels, allowed) :: UploadsPinned(Final(EMPTY, labels)))
            <==> PinsOwnUrl(allowed)
  {
    if PinsOwnUrl(allowed) {
      forall labels | Behaviour(EMPTY, labels) && RegistersOnly(labels, allowed) ensures UploadsPinned(Final(EMPTY, labels)) {
        DriveUrlIsPinned(labels, allowed);
      }
    } else {
      var row :| allowed(row) && Registrable(row) && Findable(row) && !UrlDerived(row);
      var u := Upload("r", row.name.value, row.sha256.value, "f", map[], None);
      var labels := RegisteredUrlIsInherited(row, u);
      forall l | l in labels && l.StartRegister? ensures allowed(l.row) {
        var k :| 0 <= k < |labels| && labels[k] == l;
        assert k == 0;
      }
      assert RegistersOnly(labels, allowed);
      assert 1 in Final(EMPTY, labels).uploaded && !UrlDerived(Final(EMPTY, labels).rows[1]);
      assert !UploadsPinned(Final(EMPTY, labels));
    }
  }

  /** A dedup hit is pinned exactly when the row it found is pinned, or that row
      has no drive_url and the caller's own happens to match its uri. */
  lemma {:induction false} HitPinnedExactly(u: Upload, existing: Artifact)
    ensures UrlDerived(RowForHit(u, existing)) <==>
              if DRIVE_URL_KEY in existing.meta then UrlDerived(existing)
              else GDRIVE <= existing.uri && DRIVE_URL_KEY in u.meta
                   && u.meta[DRIVE_URL_KEY] == DriveUrl(existing.uri[|GDRIVE|..])
  {
    assert SOURCE_PATH_KEY[0] != DRIVE_URL_KEY[0];
  }

  // ----- Lineage -----

  predicate SameContent(a: Artifact, r: Artifact) {
    ContentOf(a).Some? && ContentOf(r) == ContentOf(a)
  }

  /** The WHERE clause get_artifact_lineage uses for artifact `a`; both tests of
      `a` are truth tests, so an empty string counts as absent. */
  predicate LineageSelects(a: Artifact, r: Artifact) {
    && a.name.Some? && a.name.value != ""
    && if a.sha256.Some? && a.sha256.value != "" then MatchesNameSha(r, a.name.value, a.sha256.value)
       else r.name == a.name && r.uri == a.uri && r.sha256.None?
  }

  /** (produced_by_run_id, used_by_run_ids); rows owned by an experiment have no run. */
  function Lineage(rows: Rows, a: Artifact): (Option<string>, seq<Option<string>>) {
    var found := Filter(r => LineageSelects(a, r), rows);
    (FirstProducedRun(found), UsedRuns(found))
  }

  function FirstProducedRun(rows: Rows): Option<string> {
    if rows == [] then None else if rows[0].role.Produced? then rows[0].run else FirstProducedRun(rows[1..])
  }

  function UsedRuns(rows: Rows): seq<Option<string>> {
    if rows == [] then [] else (if rows[0].role.Used? then [rows[0].run] else []) + UsedRuns(rows[1..])
  }

  function RunsOf(rows: Rows): (r: seq<Option<string>>)
    ensures |r| == |rows| && forall i | 0 <= i < |rows| :: r[i] == rows[i].run
  {
    if rows == [] then [] else [rows[0].run] + RunsOf(rows[1..])
  }

  /** For a named artifact the lineage query selects its own content exactly when
      neither its name nor its sha256 is the empty string. */
  lemma {:induction false} LineageSelectsContent(a: Artifact)
    requires a.name.Some?
    ensures (forall r :: LineageSelects(a, r) <==> SameContent(a, r))
            <==> a.name.value != "" && a.sha256 != Some("")
  {
    assert SameContent(a, a);
    if a.sha256 == Some("") { assert !LineageSelects(a, a); }
  }

  function ProducedIn(rows: Rows): nat {
    if rows == [] then 0 else (if rows[0].role.Produced? then 1 else 0) + ProducedIn(rows[1..])
  }

  lemma {:induction false} CountFromFront(rows: Rows, c: Content)
    requires rows != []
    ensures ProducedCount(rows, c)
         == (if rows[0].role.Produced? && ContentOf(rows[0]) == Some(c) then 1 else 0) + ProducedCount(rows[1..], c)
    decreases |rows|
  {
    if |rows| > 1 {
      CountFromFront(rows[..|rows| - 1], c);
      assert rows[..|rows| - 1][1..] == rows[1..][..|rows[1..]| - 1];
    }
  }

  lemma {:induction false} ProducedInContent(rows: Rows, c: Content)
    ensures ProducedIn(Filter(r => ContentOf(r) == Some(c), rows)) == ProducedCount(rows, c)
  {
    if rows != [] {
      CountFromFront(rows, c);
      ProducedInContent(rows[1..], c);
    }
  }

  lemma {:induction false} OnlyUsed(rows: Rows)
    requires ProducedIn(rows) == 0
    ensures UsedRuns(rows) == RunsOf(rows)
  {
    if rows != [] { OnlyUsed(rows[1..]); }
  }

  lemma {:induction false} SplitByRole(rows: Rows)
    requires ProducedIn(rows) == 1
    ensures multiset([FirstProducedRun(rows)]) + multiset(UsedRuns(rows)) == multiset(RunsOf(rows))
  {
    if rows[0].role.Produced? {
      OnlyUsed(rows[1..]);
      assert UsedRuns(rows) == RunsOf(rows[1..]);
    } else {
      SplitByRole(rows[1..]);
      assert multiset([rows[0].run] + UsedRuns(rows[1..])) == multiset([rows[0].run]) + multiset(UsedRuns(rows[1..]));
    }
    assert multiset([rows[0].run] + RunsOf(rows[1..])) == multiset([rows[0].run]) + multiset(RunsOf(rows[1..]));
  }

  lemma {:induction false} RunsCount(rows: Rows)
    ensures |RunsOf(rows)| == |rows| && |UsedRuns(rows)| == |rows| - ProducedIn(rows)
  {
    if rows != [] { RunsCount(rows[1..]); }
  }

  /** produced_by together with used_by lists the owner of every row of `a`'s content
      exactly once. */
  ghost predicate LineageExact(rows: Rows, a: Artifact) {
    var (producedBy, usedBy) := Lineage(rows, a);
    multiset([producedBy]) + multiset(usedBy) == multiset(RunsOf(Filter(r => SameContent(a, r), rows)))
  }

  /** Over every interleaving and any roles, the lineage of content with a non-empty
      address is exact if and only if some registration asked to produce it. */
  lemma {:induction false} LineageIsExactIfAsked(labels: seq<Label>, i: nat)
    requires Behaviour(EMPTY, labels) && i < |Final(EMPTY, labels).rows|
    requires var a := Final(EMPTY, labels).rows[i]; a.name.Some? && a.name.value != "" && a.sha256 != Some("")
    ensures var s := Final(EMPTY, labels);
      LineageExact(s.rows, s.rows[i]) <==> ContentOf(s.rows[i]).value in s.asked
  {
    var rows := Final(EMPTY, labels).rows;
    var a := rows[i];
    var c := ContentOf(a).value;
    OneProducedRowPerAskedContent(labels, c);
    LineageSelectsContent(a);
    var found := Filter(r => LineageSelects(a, r), rows);
    FilterAgrees(r => LineageSelects(a, r), r => SameContent(a, r), rows);
    FilterAgrees(r => SameContent(a, r), r => ContentOf(r) == Some(c), rows);
    ProducedInContent(rows, c);
    if c in Final(EMPTY, labels).asked {
      SplitByRole(found);
    } else {
      RunsCount(found);
      assert |multiset([FirstProducedRun(found)]) + multiset(UsedRuns(found))| == 1 + |found|;
      assert |multiset(RunsOf(found))| == |found|;
    }
  }

  /** Row `k` is the produced row of `a`'s content. */
  predicate IsProducer(rows: Rows, a: Artifact, k: int) {
    0 <= k < |rows| && SameContent(a, rows[k]) && rows[k].role.Produced?
  }

  lemma {:induction false} UsersOfContent(rows: Rows, a: Artifact)
    ensures UsedRuns(Filter(r => SameContent(a, r), rows)) == RunsOf(Filter(r => SameContent(a, r) && r.role.Used?, rows))
  {
    if rows != [] { UsersOfContent(rows[1..], a); }
  }

  /** Row `k` is the first of them. */
  predicate IsFirstProducer(rows: Rows, a: Artifact, k: int) {
    IsProducer(rows, a, k) && forall j | 0 <= j < k :: !IsProducer(rows, a, j)
  }

  lemma {:induction false} ProducerOfContent(rows: Rows, a: Artifact)
    ensures var p := FirstProducedRun(Filter(r => SameContent(a, r), rows));
      if exists k :: IsProducer(rows, a, k) then exists k :: IsFirstProducer(rows, a, k) && p == rows[k].run
      else p == None
  {
    if rows != [] {
      var rest := rows[1..];
      ProducerOfContent(rest, a);
      assert forall k | 0 < k < |rows| :: rows[k] == rest[k - 1];
      assert forall k :: IsProducer(rest, a, k) ==> IsProducer(rows, a, k + 1);
      if IsProducer(rows, a, 0) {
        assert IsFirstProducer(rows, a, 0);
      } else {
        var p := FirstProducedRun(Filter(r => SameContent(a, r), rest));
        assert FirstProducedRun(Filter(r => SameContent(a, r), rows)) == p;
        if exists k :: IsProducer(rows, a, k) {
          var k :| IsProducer(rows, a, k);
          assert IsProducer(rest, a, k - 1);
          var j :| IsFirstProducer(rest, a, j) && p == rest[j].run;
          forall i | 0 <= i < j + 1 ensures !IsProducer(rows, a, i) {
            if i > 0 { assert !IsProducer(rest, a, i - 1); }
          }
          assert IsFirstProducer(rows, a, j + 1);
        }
      }
    }
  }

  lemma {:induction false} ProducersOfPrefix(rows: Rows, a: Artifact)
    requires rows != []
    ensures forall k | 0 <= k < |rows| - 1 :: IsProducer(rows, a, k) <==> IsProducer(rows[..|rows| - 1], a, k)
  {
  }

  /** Counting one produced row means there is exactly one. */
  lemma {:induction false} OneProducer(rows: Rows, a: Artifact) returns (k: int)
    requires ContentOf(a).Some? && ProducedCount(rows, ContentOf(a).value) == 1
    ensures IsProducer(rows, a, k) && forall j | IsProducer(rows, a, j) :: j == k
    decreases |rows|
  {
    var n := |rows| - 1;
    ProducersOfPrefix(rows, a);
    if IsProducer(rows, a, n) {
      NoneBefore(rows[..n], a);
      k := n;
    } else {
      k := OneProducer(rows[..n], a);
    }
  }

  lemma {:induction false} NoneBefore(rows: Rows, a: Artifact)
    requires ContentOf(a).Some? && ProducedCount(rows, ContentOf(a).value) == 0
    ensures forall k :: !IsProducer(rows, a, k)
  {
    CountIsZero(rows, ContentOf(a).value);
  }

  /** Who is who, over every interleaving and any roles: used_by are the owners of the
      content's used rows in order, and produced_by is the owner of its one produced row,
      or nobody when no registration asked to produce it. */
  lemma {:induction false} LineageNamesTheProducer(labels: seq<Label>, i: nat)
    requires Behaviour(EMPTY, labels) && i < |Final(EMPTY, labels).rows|
    requires var a := Final(EMPTY, labels).rows[i]; a.name.Some? && a.name.value != "" && a.sha256 != Some("")
    ensures var s := Final(EMPTY, labels);
      var a := s.rows[i];
      var (producedBy, usedBy) := Lineage(s.rows, a);
      && usedBy == RunsOf(Filter(r => SameContent(a, r) && r.role.Used?, s.rows))
      && if ContentOf(a).value in s.asked
         then (exists k :: IsProducer(s.rows, a, k) && producedBy == s.rows[k].run)
              && forall j, k | IsProducer(s.rows, a, j) && IsProducer(s.rows, a, k) :: j == k
         else producedBy == None && forall k :: !IsProducer(s.rows, a, k)
  {
    var s := Final(EMPTY, labels);
    var a := s.rows[i];
    var c := ContentOf(a).value;
    OneProducedRowPerAskedContent(labels, c);
    LineageSelectsContent(a);
    FilterAgrees(r => LineageSelects(a, r), r => SameContent(a, r), s.rows);
    UsersOfContent(s.rows, a);
    ProducerOfContent(s.rows, a);
    if c in s.asked {
      var k := OneProducer(s.rows, a);
    } else {
      NoneBefore(s.rows, a);
    }
  }

  /** So with default roles the lineage of every row with a non-empty address is exact. */
  lemma {:induction false} LineageAccountsForEveryRow(labels: seq<Label>, i: nat)
    requires Behaviour(EMPTY, labels) && forall l | l in labels :: DefaultRoles(l)
    requires i < |Final(EMPTY, labels).rows|
    requires var a := Final(EMPTY, labels).rows[i]; a.name.Some? && a.name.value != "" && a.sha256 != Some("")
    ensures LineageExact(Final(EMPTY, labels).rows, Final(EMPTY, labels).rows[i])
  {
    BehaviourKeepsDefault(EMPTY, labels);
    assert RowAsked(Final(EMPTY, labels), Final(EMPTY, labels).rows[i]);
    LineageIsExactIfAsked(labels, i);
  }
}
