/** The archiver under crashes and reruns. */
module ArchiveRuns {
  // Step by step (scripts/_drive_common.py): a process that may be killed between any two
  // steps, Drive, and the manifest file, which each record truncates and then writes again.

  import opened Common
  import opened FileTree
  import opened Archiver

  type Manifest = map<Path, Entry>

  /** The manifest file. Torn: truncated by a record that has not finished writing. */
  datatype OnDisk = Absent | Whole(entries: Manifest) | Torn

  /** How far the current item is: to be looked up, to be sent, on Drive but not
      recorded, or being written to the manifest file. */
  datatype Stage = Checking | Sending | Uploaded(file: nat) | Writing

  /** A process goes through its own list of the files to archive. */
  datatype Process = Down | Up(work: seq<Path>, memory: Manifest, pos: nat, stage: Stage)

  datatype State = State(drive: Drive, files: seq<DriveFile>, disk: OnDisk, process: Process)

  /** EnsureFolder may come at any time: which folders are looked up early, and which
      are found in a cache, makes no difference to what follows. */
  datatype Label = Restart(work: seq<Path>) | Check | EnsureFolder(path: Path) | Upload | TruncateManifest | WriteManifest | Crash

  function Fresh(root: FolderId): State {
    State(FolderTable(root, map[], root + 1), [], Absent, Down)
  }

  /** What Manifest.__init__ reads; a torn file makes it raise. */
  function Loaded(disk: OnDisk): Manifest
    requires !disk.Torn?
  {
    if disk.Absent? then map[] else disk.entries
  }

  /** Get or create the folder of a path whose parent directory has one. */
  function Ensured(drive: Drive, path: Path): (d: Drive)
    requires path != [] && Resolve(drive, Parent(path)).Some?
    ensures Grows(drive, d)
  {
    var key := (Resolve(drive, Parent(path)).value, path[|path| - 1]);
    ResolveBounded(drive, Parent(path));
    if key in drive.ids then drive else FolderTable(drive.root, drive.ids[key := drive.next], drive.next + 1)
  }

  lemma {:induction false} EnsuredResolves(drive: Drive, path: Path)
    requires path != [] && Resolve(drive, Parent(path)).Some?
    ensures Resolve(Ensured(drive, path), path).Some?
  {
    ResolveIsStable(drive, Ensured(drive, path), Parent(path));
  }

  predicate At(s: State, stage: Stage) {
    s.process.Up? && s.process.pos < |s.process.work| && s.process.stage == stage
  }

  /** The file the process is at. */
  function Item(s: State): Path
    requires s.process.Up? && s.process.pos < |s.process.work|
  {
    s.process.work[s.process.pos]
  }

  /** `goal` are the files to archive: the tree is fixed, but INDEX.md and the order in
      which directories are listed may change from run to run. */
  predicate Enabled(goal: set<Path>, s: State, l: Label) {
    match l
    case Restart(work) => s.process.Down? && SetOf(work) == goal
    case Check => At(s, Checking)
    case EnsureFolder(path) => s.process.Up? && path != [] && Resolve(s.drive, Parent(path)).Some?
    case Upload => At(s, Sending) && Resolve(s.drive, Parent(Item(s))).Some?
    case TruncateManifest => s.process.Up? && s.process.pos < |s.process.work| && s.process.stage.Uploaded?
    case WriteManifest => At(s, Writing)
    case Crash => s.process.Up?
  }

  function Do(goal: set<Path>, sizes: Path -> nat, s: State, l: Label): State
    requires Enabled(goal, s, l)
  {
    match l
    case Restart(work) => if s.disk.Torn? then s else s.(process := Up(work, Loaded(s.disk), 0, Checking))
    case Check =>
      if Item(s) in s.process.memory then s.(process := s.process.(pos := s.process.pos + 1))
      else s.(process := s.process.(stage := Sending))
    case EnsureFolder(path) => s.(drive := Ensured(s.drive, path))
    case Upload =>
      var item := Item(s);
      s.(files := s.files + [DriveFile(item, Resolve(s.drive, Parent(item)).value)],
         process := s.process.(stage := Uploaded(|s.files|)))
    case TruncateManifest =>
      // The entry goes into memory, then opening the file for writing empties it.
      var item := Item(s);
      s.(disk := Torn,
         process := s.process.(memory := s.process.memory[item := Entry(s.process.stage.file, sizes(item))], stage := Writing))
    case WriteManifest =>
      s.(disk := Whole(s.process.memory), process := s.process.(pos := s.process.pos + 1, stage := Checking))
    case Crash => s.(process := Down)
  }

  predicate Behaviour(goal: set<Path>, sizes: Path -> nat, s: State, labels: seq<Label>)
    decreases |labels|
  {
    labels == [] || (Enabled(goal, s, labels[0]) && Behaviour(goal, sizes, Do(goal, sizes, s, labels[0]), labels[1..]))
  }

  function Final(goal: set<Path>, sizes: Path -> nat, s: State, labels: seq<Label>): State
    requires Behaviour(goal, sizes, s, labels)
    decreases |labels|
  {
    if labels == [] then s else Final(goal, sizes, Do(goal, sizes, s, labels[0]), labels[1..])
  }

  function Crashes(labels: seq<Label>): nat {
    if labels == [] then 0 else (if labels[0].Crash? then 1 else 0) + Crashes(labels[1..])
  }

  /** Some crash falls between the truncation of the manifest file and the end of its write. */
  predicate TearsManifest(goal: set<Path>, sizes: Path -> nat, s: State, labels: seq<Label>)
    requires Behaviour(goal, sizes, s, labels)
    decreases |labels|
  {
    labels != [] && (
      || (labels[0].Crash? && s.process.stage.Writing?)
      || TearsManifest(goal, sizes, Do(goal, sizes, s, labels[0]), labels[1..]))
  }

  predicate Finished(s: State) {
    s.process.Up? && s.process.pos == |s.process.work| && s.process.stage.Checking?
  }

  // ----- The invariant -----

  /** Every Drive file is one of the goal's, in the folder of its directory. */
  predicate FilesOk(goal: set<Path>, files: seq<DriveFile>, drive: FolderTable) {
    forall i | 0 <= i < |files| :: files[i].path in goal && FiledUnder(files[i], files[i].path, drive)
  }

  predicate Stuck(s: State) { s.process.Down? && s.disk.Torn? }

  /** The process's own view, after `k` crashes. */
  ghost predicate UpOk(goal: set<Path>, sizes: Path -> nat, s: State, k: nat)
    requires s.process.Up?
  {
    var Up(work, memory, pos, stage) := s.process;
    && SetOf(work) == goal && pos <= |work| && memory.Keys <= goal && SetOf(work[..pos]) <= memory.Keys
    && ManifestOk(Books(sizes, s.files, memory))
    && (if stage.Writing? then s.disk.Torn? else !s.disk.Torn? && Loaded(s.disk) == memory)
    && (!stage.Checking? ==> pos < |work| && (work[pos] in memory <==> stage.Writing?))
    && (stage.Uploaded? ==> stage.file < |s.files| && s.files[stage.file].path == work[pos])
    && |memory| + InFlight(s) <= |s.files| <= |memory| + InFlight(s) + k
  }

  /** Files on Drive that no manifest knows of yet, though the process does. */
  function InFlight(s: State): nat {
    if s.process.Up? && s.process.stage.Uploaded? then 1 else 0
  }

  ghost predicate Inv(goal: set<Path>, sizes: Path -> nat, s: State, k: nat) {
    && FilesOk(goal, s.files, s.drive)
    && |s.files| <= |goal| + k
    && (s.process.Up? ==> UpOk(goal, sizes, s, k))
    && (s.process.Down? && !s.disk.Torn? ==>
          && Loaded(s.disk).Keys <= goal && ManifestOk(Books(sizes, s.files, Loaded(s.disk)))
          && |Loaded(s.disk)| <= |s.files| <= |Loaded(s.disk)| + k)
  }

  lemma {:induction false} FilesStayOk(goal: set<Path>, files: seq<DriveFile>, before: FolderTable, after: FolderTable)
    requires FilesOk(goal, files, before) && Grows(before, after)
    ensures FilesOk(goal, files, after)
  {
    forall i | 0 <= i < |files| ensures FiledUnder(files[i], files[i].path, after) {
      ResolveIsStable(before, after, Parent(files[i].path));
    }
  }

  lemma {:induction false} CheckKeepsInv(goal: set<Path>, sizes: Path -> nat, s: State, k: nat)
    requires Inv(goal, sizes, s, k) && Enabled(goal, s, Check)
    ensures Inv(goal, sizes, Do(goal, sizes, s, Check), k)
  {
    TakeNext(s.process.work, s.process.pos);
  }

  lemma {:induction false} UploadKeepsInv(goal: set<Path>, sizes: Path -> nat, s: State, k: nat)
    requires Inv(goal, sizes, s, k) && Enabled(goal, s, Upload)
    ensures Inv(goal, sizes, Do(goal, sizes, s, Upload), k)
  {
    var s', item := Do(goal, sizes, s, Upload), Item(s);
    assert item in goal && item !in s.process.memory;
    StrictSubsetIsSmaller(s.process.memory.Keys, goal);
    assert |s.process.memory| == |s.process.memory.Keys|;
  }

  lemma {:induction false} TruncateKeepsInv(goal: set<Path>, sizes: Path -> nat, s: State, k: nat)
    requires Inv(goal, sizes, s, k) && Enabled(goal, s, TruncateManifest)
    ensures Inv(goal, sizes, Do(goal, sizes, s, TruncateManifest), k)
  {
    var s', item := Do(goal, sizes, s, TruncateManifest), Item(s);
    assert item in goal;
    assert s'.process.memory.Keys == s.process.memory.Keys + {item};
    assert |s'.process.memory| == |s'.process.memory.Keys| == |s.process.memory.Keys| + 1;
  }

  lemma {:induction false} WriteKeepsInv(goal: set<Path>, sizes: Path -> nat, s: State, k: nat)
    requires Inv(goal, sizes, s, k) && Enabled(goal, s, WriteManifest)
    ensures Inv(goal, sizes, Do(goal, sizes, s, WriteManifest), k)
  {
    TakeNext(s.process.work, s.process.pos);
  }

  lemma {:induction false} StepKeepsInv(goal: set<Path>, sizes: Path -> nat, s: State, l: Label, k: nat)
    requires Inv(goal, sizes, s, k) && Enabled(goal, s, l)
    ensures Inv(goal, sizes, Do(goal, sizes, s, l), k + Crashes([l]))
  {
    assert Crashes([l]) == if l.Crash? then 1 else 0;
    match l
    case Restart(_) =>
    case Check => CheckKeepsInv(goal, sizes, s, k);
    case EnsureFolder(path) => FilesStayOk(goal, s.files, s.drive, Ensured(s.drive, path));
    case Upload => UploadKeepsInv(goal, sizes, s, k);
    case TruncateManifest => TruncateKeepsInv(goal, sizes, s, k);
    case WriteManifest => WriteKeepsInv(goal, sizes, s, k);
    case Crash =>
  }

  lemma {:induction false} BehaviourKeepsInv(goal: set<Path>, sizes: Path -> nat, s: State, labels: seq<Label>, k: nat)
    requires Inv(goal, sizes, s, k) && Behaviour(goal, sizes, s, labels)
    ensures Inv(goal, sizes, Final(goal, sizes, s, labels), k + Crashes(labels))
    decreases |labels|
  {
    if labels != [] {
      StepKeepsInv(goal, sizes, s, labels[0], k);
      assert Crashes([labels[0]]) == if labels[0].Crash? then 1 else 0;
      BehaviourKeepsInv(goal, sizes, Do(goal, sizes, s, labels[0]), labels[1..], k + Crashes([labels[0]]));
    }
  }

  // ----- What crashes cost -----

  /** However often and wherever the script is killed and run again: uploads number at
      most the files to archive plus the crashes; and while the manifest file is
      whole, at most what it records, plus the crashes, plus the file in flight. Each
      entry names a file that is on Drive, and each Drive file lies in the folder of
      its own directory. */
  lemma {:induction false} CrashesCost(goal: set<Path>, sizes: Path -> nat, root: FolderId, labels: seq<Label>)
    requires Behaviour(goal, sizes, Fresh(root), labels)
    ensures var s := Final(goal, sizes, Fresh(root), labels);
      && |s.files| <= |goal| + Crashes(labels)
      && FilesOk(goal, s.files, s.drive)
      && (!s.disk.Torn? ==>
            var recorded := |Loaded(s.disk)|;
            && recorded + InFlight(s) <= |s.files| <= recorded + InFlight(s) + Crashes(labels)
            && ManifestOk(Books(sizes, s.files, Loaded(s.disk))))
  {
    BehaviourKeepsInv(goal, sizes, Fresh(root), labels, 0);
  }

  // ----- When the archive can still be finished -----

  lemma {:induction false} OneStep(goal: set<Path>, sizes: Path -> nat, s: State, l: Label, rest: seq<Label>)
    requires Enabled(goal, s, l) && Behaviour(goal, sizes, Do(goal, sizes, s, l), rest)
    ensures Behaviour(goal, sizes, s, [l] + rest)
    ensures Final(goal, sizes, s, [l] + rest) == Final(goal, sizes, Do(goal, sizes, s, l), rest)
    ensures Crashes([l] + rest) == Crashes(rest) + if l.Crash? then 1 else 0
  {
    assert ([l] + rest)[1..] == rest;
  }

  lemma {:induction false} Uncons<T>(a: seq<T>, b: seq<T>)
    requires a != []
    ensures a + b == [a[0]] + (a[1..] + b)
  {
  }

  lemma {:induction false} BehaviourConcat(goal: set<Path>, sizes: Path -> nat, s: State, a: seq<Label>, b: seq<Label>)
    requires Behaviour(goal, sizes, s, a) && Behaviour(goal, sizes, Final(goal, sizes, s, a), b)
    ensures Behaviour(goal, sizes, s, a + b)
    ensures Final(goal, sizes, s, a + b) == Final(goal, sizes, Final(goal, sizes, s, a), b)
    decreases |a|
  {
    if a == [] {
      assert a + b == b;
    } else {
      BehaviourConcat(goal, sizes, Do(goal, sizes, s, a[0]), a[1..], b);
      OneStep(goal, sizes, s, a[0], a[1..] + b);
      Uncons(a, b);
    }
  }

  lemma {:induction false} CrashesAdd(a: seq<Label>, b: seq<Label>)
    ensures Crashes(a + b) == Crashes(a) + Crashes(b)
    decreases |a|
  {
    if a == [] {
      assert a + b == b;
    } else {
      CrashesAdd(a[1..], b);
      assert (a + b)[1..] == a[1..] + b;
    }
  }

  /** The folders of a path can be made one after the other. */
  lemma {:induction false} FoldersCanBeMade(goal: set<Path>, sizes: Path -> nat, s: State, path: Path) returns (labels: seq<Label>)
    requires s.process.Up?
    ensures Behaviour(goal, sizes, s, labels) && Crashes(labels) == 0
    ensures var s' := Final(goal, sizes, s, labels);
      s' == s.(drive := s'.drive) && Resolve(s'.drive, path).Some?
    decreases |path|
  {
    labels := [];
    if Resolve(s.drive, path).None? {
      var above := FoldersCanBeMade(goal, sizes, s, Parent(path));
      var mid := Final(goal, sizes, s, above);
      var l := EnsureFolder(path);
      EnsuredResolves(mid.drive, path);
      OneStep(goal, sizes, mid, l, []);
      BehaviourConcat(goal, sizes, s, above, [l] + []);
      CrashesAdd(above, [l] + []);
      labels := above + ([l] + []);
    }
  }

  function Rank(stage: Stage): nat {
    match stage
    case Checking => 3
    case Sending => 2
    case Uploaded(_) => 1
    case Writing => 0
  }

  function NextStep(s: State, work: seq<Path>): Label {
    if s.process.Down? then Restart(work) else
      match s.process.stage
      case Checking => Check
      case Sending => Upload
      case Uploaded(_) => TruncateManifest
      case Writing => WriteManifest
  }

  /** Left alone, the script gets through all of its work from any reachable state but
      the stuck one, in whatever order it next finds the files. */
  lemma {:induction false} RunsToTheEnd(goal: set<Path>, sizes: Path -> nat, s: State, work: seq<Path>, k: nat)
    returns (labels: seq<Label>)
    requires Inv(goal, sizes, s, k) && !Stuck(s) && SetOf(work) == goal
    ensures Behaviour(goal, sizes, s, labels) && Crashes(labels) == 0
    ensures Finished(Final(goal, sizes, s, labels))
    decreases if s.process.Down? then 1 else 0,
              if s.process.Up? then |s.process.work| - s.process.pos else 0,
              if s.process.Up? then Rank(s.process.stage) else 0,
              if s.process.Up? && At(s, Sending) && Resolve(s.drive, Parent(Item(s))).None? then 1 else 0
  {
    if Finished(s) { return []; }
    if At(s, Sending) && Resolve(s.drive, Parent(Item(s))).None? {
      var folders := FoldersCanBeMade(goal, sizes, s, Parent(Item(s)));
      BehaviourKeepsInv(goal, sizes, s, folders, k);
      var rest := RunsToTheEnd(goal, sizes, Final(goal, sizes, s, folders), work, k);
      BehaviourConcat(goal, sizes, s, folders, rest);
      CrashesAdd(folders, rest);
      return folders + rest;
    }
    var l := NextStep(s, work);
    StepKeepsInv(goal, sizes, s, l, k);
    assert Crashes([l]) == 0;
    var rest := RunsToTheEnd(goal, sizes, Do(goal, sizes, s, l), work, k);
    OneStep(goal, sizes, s, l, rest);
    labels := [l] + rest;
  }

  /** Out of the stuck state nothing leads: every restart raises on the torn file. */
  lemma {:induction false} StuckForEver(goal: set<Path>, sizes: Path -> nat, s: State, labels: seq<Label>)
    requires Stuck(s) && Behaviour(goal, sizes, s, labels)
    ensures Final(goal, sizes, s, labels) == s
    decreases |labels|
  {
    if labels != [] { StuckForEver(goal, sizes, s, labels[1..]); }
  }

  lemma {:induction false} TearingSticks(goal: set<Path>, sizes: Path -> nat, s: State, labels: seq<Label>, k: nat)
    requires Inv(goal, sizes, s, k) && Behaviour(goal, sizes, s, labels)
    ensures Stuck(Final(goal, sizes, s, labels)) <==> Stuck(s) || TearsManifest(goal, sizes, s, labels)
    decreases |labels|
  {
    if Stuck(s) {
      StuckForEver(goal, sizes, s, labels);
    } else if labels != [] {
      StepKeepsInv(goal, sizes, s, labels[0], k);
      TearingSticks(goal, sizes, Do(goal, sizes, s, labels[0]), labels[1..], k + Crashes([labels[0]]));
    }
  }

  ghost predicate CanFinish(goal: set<Path>, sizes: Path -> nat, s: State) {
    exists more :: Behaviour(goal, sizes, s, more) && Finished(Final(goal, sizes, s, more))
  }

  lemma {:induction false} StuckCannotFinish(goal: set<Path>, sizes: Path -> nat, s: State)
    requires Stuck(s)
    ensures !CanFinish(goal, sizes, s)
  {
    forall more | Behaviour(goal, sizes, s, more) ensures !Finished(Final(goal, sizes, s, more)) {
      StuckForEver(goal, sizes, s, more);
    }
  }

  /** After any crashes and reruns, some continuation finishes the archive if and only
      if no crash fell inside a write of the manifest file. */
  lemma {:induction false} ResumableExactly(goal: set<Path>, sizes: Path -> nat, root: FolderId, labels: seq<Label>)
    requires Behaviour(goal, sizes, Fresh(root), labels)
    ensures CanFinish(goal, sizes, Final(goal, sizes, Fresh(root), labels))
            <==> !TearsManifest(goal, sizes, Fresh(root), labels)
  {
    var s := Final(goal, sizes, Fresh(root), labels);
    BehaviourKeepsInv(goal, sizes, Fresh(root), labels, 0);
    TearingSticks(goal, sizes, Fresh(root), labels, 0);
    if Stuck(s) {
      StuckCannotFinish(goal, sizes, s);
    } else {
      var work := ListOf(goal);
      var more := RunsToTheEnd(goal, sizes, s, work, Crashes(labels));
    }
  }

  /** The failing input: for any files to archive, the first one, killed while its
      record is written. */
  lemma {:induction false} TornWriteBlocksReruns(goal: set<Path>, sizes: Path -> nat, root: FolderId) returns (labels: seq<Label>)
    requires goal != {}
    ensures Behaviour(goal, sizes, Fresh(root), labels) && Crashes(labels) == 1
    ensures var s := Final(goal, sizes, Fresh(root), labels);
      && |s.files| == 1 && s.disk.Torn?
      && forall more | Behaviour(goal, sizes, s, more) :: Final(goal, sizes, s, more) == s
  {
    var s0 := Fresh(root);
    var work := ListOf(goal);
    var s1 := Do(goal, sizes, s0, Restart(work));
    var s2 := Do(goal, sizes, s1, Check);
    var folders := FoldersCanBeMade(goal, sizes, s2, Parent(work[0]));
    var s3 := Final(goal, sizes, s2, folders);
    var kill := KillWhileWriting(goal, sizes, s3);
    BehaviourConcat(goal, sizes, s2, folders, kill);
    CrashesAdd(folders, kill);
    OneStep(goal, sizes, s1, Check, folders + kill);
    OneStep(goal, sizes, s0, Restart(work), [Check] + (folders + kill));
    labels := [Restart(work)] + ([Check] + (folders + kill));
    var s := Final(goal, sizes, s0, labels);
    forall more | Behaviour(goal, sizes, s, more) ensures Final(goal, sizes, s, more) == s { StuckForEver(goal, sizes, s, more); }
  }

  lemma {:induction false} KillWhileWriting(goal: set<Path>, sizes: Path -> nat, s: State) returns (labels: seq<Label>)
    requires Enabled(goal, s, Upload)
    ensures Behaviour(goal, sizes, s, labels) && Crashes(labels) == 1
    ensures var s' := Final(goal, sizes, s, labels); Stuck(s') && |s'.files| == |s.files| + 1
  {
    var s1 := Do(goal, sizes, s, Upload);
    var s2 := Do(goal, sizes, s1, TruncateManifest);
    var s3 := Do(goal, sizes, s2, Crash);
    OneStep(goal, sizes, s2, Crash, []);
    OneStep(goal, sizes, s1, TruncateManifest, [Crash] + []);
    OneStep(goal, sizes, s, Upload, [TruncateManifest] + ([Crash] + []));
    labels := [Upload] + ([TruncateManifest] + ([Crash] + []));
  }

  // ----- The bound on crashes is tight -----

  /** A run killed right after its first upload leaves a file nobody knows of. */
  lemma {:induction false} CrashAfterUpload(goal: set<Path>, sizes: Path -> nat, s: State) returns (labels: seq<Label>)
    requires goal != {} && s.process.Down? && s.disk.Absent?
    ensures Behaviour(goal, sizes, s, labels) && Crashes(labels) == 1
    ensures var s' := Final(goal, sizes, s, labels);
      s'.process.Down? && s'.disk.Absent? && |s'.files| == |s.files| + 1
  {
    var work := ListOf(goal);
    var s1 := Do(goal, sizes, s, Restart(work));
    var s2 := Do(goal, sizes, s1, Check);
    var folders := FoldersCanBeMade(goal, sizes, s2, Parent(work[0]));
    var s3 := Final(goal, sizes, s2, folders);
    var s4 := Do(goal, sizes, s3, Upload);
    OneStep(goal, sizes, s4, Crash, []);
    OneStep(goal, sizes, s3, Upload, [Crash] + []);
    var kill := [Upload] + ([Crash] + []);
    BehaviourConcat(goal, sizes, s2, folders, kill);
    CrashesAdd(folders, kill);
    OneStep(goal, sizes, s1, Check, folders + kill);
    OneStep(goal, sizes, s, Restart(work), [Check] + (folders + kill));
    labels := [Restart(work)] + ([Check] + (folders + kill));
  }

  /** Each crash can cost a whole repeated upload: any number of them can leave that many
      files on Drive and none recorded. */
  lemma {:induction false} CrashesMayCost(goal: set<Path>, sizes: Path -> nat, root: FolderId, k: nat) returns (labels: seq<Label>)
    requires goal != {}
    ensures Behaviour(goal, sizes, Fresh(root), labels) && Crashes(labels) == k
    ensures var s := Final(goal, sizes, Fresh(root), labels);
      s.process.Down? && s.disk.Absent? && |s.files| == k
  {
    labels := [];
    if k > 0 {
      var before := CrashesMayCost(goal, sizes, root, k - 1);
      var again := CrashAfterUpload(goal, sizes, Final(goal, sizes, Fresh(root), before));
      BehaviourConcat(goal, sizes, Fresh(root), before, again);
      CrashesAdd(before, again);
      labels := before + again;
    }
  }

  // ----- An uninterrupted run is a pass -----

  /** `Passed`, with the counters it implies. */
  ghost predicate Went(start: Books, now: Books, items: seq<Path>, drive: FolderTable) {
    var sent := Uploads(items, start.manifest.Keys);
    Passed(start, now, items, drive, |sent|, Size(start.sizes, sent))
  }

  /** How far a process has come since it had `start`. */
  ghost predicate Passing(sizes: Path -> nat, start: Books, s: State) {
    s.process.Up? && s.process.pos <= |s.process.work| &&
    var Up(work, memory, pos, stage) := s.process;
    match stage
    case Checking => Went(start, Books(sizes, s.files, memory), work[..pos], s.drive)
    case Sending =>
      pos < |work| && work[pos] !in memory && Went(start, Books(sizes, s.files, memory), work[..pos], s.drive)
    case Uploaded(file) =>
      && pos < |work| && work[pos] !in memory && |s.files| == file + 1
      && FiledUnder(s.files[file], work[pos], s.drive)
      && Went(start, Books(sizes, s.files[..file], memory), work[..pos], s.drive)
    case Writing => pos < |work| && Went(start, Books(sizes, s.files, memory), work[..pos + 1], s.drive)
  }

  lemma {:induction false} FiledGrows(start: seq<DriveFile>, now: seq<DriveFile>, sent: seq<Path>, before: FolderTable, after: FolderTable)
    requires Filed(start, now, sent, before) && Grows(before, after)
    ensures Filed(start, now, sent, after)
  {
    forall i | 0 <= i < |sent| ensures FiledUnder(now[|start| + i], sent[i], after) {
      assert FiledUnder(now[|start| + i], sent[i], before);
      ResolveIsStable(before, after, Parent(sent[i]));
    }
  }

  lemma {:induction false} WentGrows(start: Books, now: Books, items: seq<Path>, before: FolderTable, after: FolderTable)
    requires Went(start, now, items, before) && Grows(before, after)
    ensures Went(start, now, items, after)
  {
    FiledGrows(start.files, now.files, Uploads(items, start.manifest.Keys), before, after);
  }

  lemma {:induction false} FoldersKeepPassing(goal: set<Path>, sizes: Path -> nat, start: Books, s: State, path: Path)
    requires Passing(sizes, start, s) && Enabled(goal, s, EnsureFolder(path))
    ensures Passing(sizes, start, Do(goal, sizes, s, EnsureFolder(path)))
  {
    var drive := Ensured(s.drive, path);
    var Up(work, memory, pos, stage) := s.process;
    match stage
    case Checking => WentGrows(start, Books(sizes, s.files, memory), work[..pos], s.drive, drive);
    case Sending => WentGrows(start, Books(sizes, s.files, memory), work[..pos], s.drive, drive);
    case Uploaded(file) =>
      WentGrows(start, Books(sizes, s.files[..file], memory), work[..pos], s.drive, drive);
      ResolveIsStable(s.drive, drive, Parent(work[pos]));
    case Writing => WentGrows(start, Books(sizes, s.files, memory), work[..pos + 1], s.drive, drive);
  }

  lemma {:induction false} EntryIsSent(sizes: Path -> nat, files: seq<DriveFile>, memory: Manifest, item: Path, entry: Entry, drive: FolderTable)
    requires files != [] && FiledUnder(files[|files| - 1], item, drive)
    ensures Sent(Books(sizes, files[..|files| - 1], memory), Books(sizes, files, memory[item := entry]), item, drive)
  {
    assert memory[item := entry].Keys == memory.Keys + {item};
  }

  lemma {:induction false} TruncateKeepsPassing(goal: set<Path>, sizes: Path -> nat, start: Books, s: State)
    requires Passing(sizes, start, s) && Enabled(goal, s, TruncateManifest)
    ensures Passing(sizes, start, Do(goal, sizes, s, TruncateManifest))
  {
    var Up(work, memory, pos, stage) := s.process;
    var item, s' := work[pos], Do(goal, sizes, s, TruncateManifest);
    var mid, now := Books(sizes, s.files[..stage.file], memory), Books(sizes, s.files, s'.process.memory);
    var sent := Uploads(work[..pos], start.manifest.Keys);
    EntryIsSent(sizes, s.files, memory, item, Entry(stage.file, sizes(item)), s.drive);
    PassSends(start, mid, now, work[..pos], item, s.drive, s.drive, |sent|, Size(start.sizes, sent));
    TakeNext(work, pos);
  }

  lemma {:induction false} CheckKeepsPassing(goal: set<Path>, sizes: Path -> nat, start: Books, s: State)
    requires Passing(sizes, start, s) && Enabled(goal, s, Check)
    ensures Passing(sizes, start, Do(goal, sizes, s, Check))
  {
    var Up(work, memory, pos, stage) := s.process;
    if work[pos] in memory {
      var sent := Uploads(work[..pos], start.manifest.Keys);
      PassSkips(start, Books(sizes, s.files, memory), work[..pos], work[pos], s.drive, |sent|, Size(start.sizes, sent));
      TakeNext(work, pos);
    }
  }

  lemma {:induction false} StepKeepsPassing(goal: set<Path>, sizes: Path -> nat, start: Books, s: State, l: Label)
    requires Passing(sizes, start, s) && Enabled(goal, s, l) && !l.Crash?
    ensures Passing(sizes, start, Do(goal, sizes, s, l))
  {
    match l
    case Check => CheckKeepsPassing(goal, sizes, start, s);
    case EnsureFolder(path) => FoldersKeepPassing(goal, sizes, start, s, path);
    case Upload => assert Do(goal, sizes, s, l).files[..|s.files|] == s.files;
    case TruncateManifest => TruncateKeepsPassing(goal, sizes, start, s);
    case WriteManifest =>
  }

  lemma {:induction false} PassingStays(goal: set<Path>, sizes: Path -> nat, start: Books, s: State, labels: seq<Label>)
    requires Passing(sizes, start, s) && Behaviour(goal, sizes, s, labels) && Crashes(labels) == 0
    ensures var s' := Final(goal, sizes, s, labels);
      Passing(sizes, start, s') && s'.process.work == s.process.work
    decreases |labels|
  {
    if labels != [] {
      StepKeepsPassing(goal, sizes, start, s, labels[0]);
      PassingStays(goal, sizes, start, Do(goal, sizes, s, labels[0]), labels[1..]);
    }
  }

  /** From a restart that can read its manifest to the end without a crash, the steps
      do what one pass over the run's own list by the archiver's methods is specified
      to do: they send, file, record and count the same. */
  lemma {:induction false} UninterruptedIsPass(goal: set<Path>, sizes: Path -> nat, s: State, labels: seq<Label>)
    requires s.process.Down? && !s.disk.Torn? && labels != [] && labels[0].Restart?
    requires Behaviour(goal, sizes, s, labels) && Crashes(labels) == 0 && Finished(Final(goal, sizes, s, labels))
    ensures var s' := Final(goal, sizes, s, labels);
      Went(Books(sizes, s.files, Loaded(s.disk)), Books(sizes, s'.files, s'.process.memory), labels[0].work, s'.drive)
  {
    var s1, s' := Do(goal, sizes, s, labels[0]), Final(goal, sizes, s, labels);
    var start := Books(sizes, s.files, Loaded(s.disk));
    assert s1.process.work[..0] == [] && start.manifest.Keys + SetOf<Path>([]) == start.manifest.Keys;
    PassingStays(goal, sizes, start, s1, labels[1..]);
    assert s'.process.work[..|s'.process.work|] == s'.process.work;
  }

  // ----- What a finished run leaves -----

  /** The manifest file records every file to archive. */
  predicate Complete(goal: set<Path>, s: State) {
    && !s.disk.Torn? && goal <= Loaded(s.disk).Keys
    && (s.process.Up? ==> s.process.stage.Checking? && SetOf(s.process.work) <= goal <= s.process.memory.Keys)
  }

  /** From then on no run uploads anything, wherever it is killed. */
  lemma {:induction false} CompleteStays(goal: set<Path>, sizes: Path -> nat, s: State, labels: seq<Label>)
    requires Complete(goal, s) && Behaviour(goal, sizes, s, labels)
    ensures Final(goal, sizes, s, labels).files == s.files && Complete(goal, Final(goal, sizes, s, labels))
    decreases |labels|
  {
    if labels != [] {
      assert s.process.Up? && s.process.pos < |s.process.work| ==> Item(s) in SetOf(s.process.work);
      CompleteStays(goal, sizes, Do(goal, sizes, s, labels[0]), labels[1..]);
    }
  }

  lemma {:induction false} FinishedIsComplete(goal: set<Path>, sizes: Path -> nat, s: State, k: nat)
    requires Inv(goal, sizes, s, k) && Finished(s)
    ensures Complete(goal, s) && Loaded(s.disk).Keys == goal
    ensures |goal| <= |s.files| <= |goal| + k
  {
    assert s.process.work[..s.process.pos] == s.process.work;
    assert |Loaded(s.disk)| == |Loaded(s.disk).Keys|;
  }

  lemma {:induction false} FinishedIsQuiet(goal: set<Path>, sizes: Path -> nat, s: State)
    requires Complete(goal, s)
    ensures forall more | Behaviour(goal, sizes, s, more) :: Final(goal, sizes, s, more).files == s.files
  {
    forall more | Behaviour(goal, sizes, s, more) ensures Final(goal, sizes, s, more).files == s.files {
      CompleteStays(goal, sizes, s, more);
    }
  }

  /** A manifest of exactly the tree's files verifies clean. */
  lemma {:induction false} WholeTreeIsClean(tree: Dir, recorded: set<Path>, sizes: Path -> nat)
    requires WellFormed(tree) && recorded == SetOf(Walk(tree, []))
    ensures var items := Walk(tree, []);
      && |recorded| == |items|
      && ReportOf(items, [], recorded, sizes) == Report(|items|, Size(sizes, items), |items|, Size(sizes, items), {})
  {
    WalkShape(tree, []);
    DistinctCount(Walk(tree, []));
    assert Below(recorded, []) == recorded && Find(tree, []) == Some(tree);
    ReportIsClean(tree, [], recorded, sizes);
  }

  /** The files to archive. */
  function Goal(tree: Dir): set<Path> { SetOf(Walk(tree, [])) }

  /** For a fixed tree and any number of crashes and reruns, each over its own indexed
      paths and listing order: once a run gets to its end, every archivable file is
      recorded, uploads number at most files plus crashes, verify_directory finds
      counts and bytes equal and nothing missing, and no later run uploads anything. */
  lemma {:induction false} ResumableArchive(tree: Dir, sizes: Path -> nat, root: FolderId, labels: seq<Label>)
    requires WellFormed(tree) && Behaviour(Goal(tree), sizes, Fresh(root), labels)
    requires Finished(Final(Goal(tree), sizes, Fresh(root), labels))
    ensures var goal, items := Goal(tree), Walk(tree, []);
      var s := Final(goal, sizes, Fresh(root), labels);
      && !s.disk.Torn? && Loaded(s.disk).Keys == goal
      && |items| <= |s.files| <= |items| + Crashes(labels)
      && ReportOf(items, [], Loaded(s.disk).Keys, sizes) == Report(|items|, Size(sizes, items), |items|, Size(sizes, items), {})
      && forall more | Behaviour(goal, sizes, s, more) :: Final(goal, sizes, s, more).files == s.files
  {
    var goal := Goal(tree);
    var s := Final(goal, sizes, Fresh(root), labels);
    BehaviourKeepsInv(goal, sizes, Fresh(root), labels, 0);
    FinishedIsComplete(goal, sizes, s, Crashes(labels));
    FinishedIsQuiet(goal, sizes, s);
    WholeTreeIsClean(tree, Loaded(s.disk).Keys, sizes);
  }

  /** Whatever paths INDEX.md names, the work of a run is such a list. */
  lemma {:induction false} EveryIndexServes(tree: Dir, paths: seq<Path>, sizes: Path -> nat, root: FolderId)
    ensures Enabled(Goal(tree), Fresh(root), Restart(Work(tree, paths)))
  {
    WorkIsTheTree(tree, paths);
  }
}
