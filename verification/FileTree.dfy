/** The directory walk of upload and verify. */
module FileTree {
  // iter_archivable_files in scripts/_drive_common.py, over a tree without symlinks.

  import opened Common

  /** A path by its parts, relative to the archived root. */
  type Path = seq<string>

  /** A directory's file names in sorted order and its subdirectories. */
  datatype Dir = Dir(files: seq<string>, subs: Subs)
  datatype Subs = NoSubs | Sub(name: string, dir: Dir, rest: Subs)

  predicate SkippedName(name: string) { name == ".git" || name == ".claude" }

  predicate SkippedDir(at: Path) { exists name :: name in at && SkippedName(name) }

  predicate SkippedFile(name: string) { name == ".DS_Store" || SkippedName(name) }

  function FilesOf(names: seq<string>, at: Path): seq<Path> {
    if names == [] then [] else (if SkippedFile(names[0]) then [] else [at + [names[0]]]) + FilesOf(names[1..], at)
  }

  /** Every file under `d`, standing at path `at`, that is archived. */
  function Walk(d: Dir, at: Path): seq<Path> {
    if SkippedDir(at) then [] else FilesOf(d.files, at) + WalkSubs(d.subs, at)
  }

  function WalkSubs(subs: Subs, at: Path): seq<Path> {
    match subs
    case NoSubs => []
    case Sub(name, dir, rest) => Walk(dir, at + [name]) + WalkSubs(rest, at)
  }

  function FindSub(subs: Subs, name: string): Option<Dir> {
    match subs
    case NoSubs => None
    case Sub(n, dir, rest) => if n == name then Some(dir) else FindSub(rest, name)
  }

  /** The directory at a path below `d`, if it is one. */
  function Find(d: Dir, path: Path): Option<Dir>
    decreases |path|
  {
    if path == [] then Some(d) else
      match FindSub(d.subs, path[0])
      case None => None
      case Some(sub) => Find(sub, path[1..])
  }

  lemma {:induction false} FoundSubIsWalked(subs: Subs, name: string, at: Path, f: Path)
    requires FindSub(subs, name).Some? && f in Walk(FindSub(subs, name).value, at + [name])
    ensures f in WalkSubs(subs, at)
  {
    if subs.name != name { FoundSubIsWalked(subs.rest, name, at, f); }
  }

  lemma {:induction false} SkippedBelow(d: Dir, path: Path, at: Path)
    requires SkippedDir(at) && Find(d, path).Some?
    ensures Walk(Find(d, path).value, at + path) == []
  {
    var name :| name in at && SkippedName(name);
    assert name in at + path;
  }

  /** Whatever a walk of a subdirectory yields, the walk of the whole tree yields. */
  lemma {:induction false} SubtreeIsWalked(d: Dir, path: Path, at: Path, f: Path)
    requires Find(d, path).Some? && f in Walk(Find(d, path).value, at + path)
    ensures f in Walk(d, at)
    decreases |path|
  {
    if SkippedDir(at) {
      SkippedBelow(d, path, at);
      assert false;
    } else if path == [] {
      assert at + path == at;
    } else {
      var sub := FindSub(d.subs, path[0]).value;
      assert at + path == (at + [path[0]]) + path[1..];
      SubtreeIsWalked(sub, path[1..], at + [path[0]], f);
      FoundSubIsWalked(d.subs, path[0], at, f);
    }
  }

  // ----- No file is walked twice -----

  predicate HasSub(subs: Subs, name: string) { FindSub(subs, name).Some? }

  /** A file system never lists a name twice in one directory. */
  predicate WellFormed(d: Dir) {
    Distinct(d.files) && WellFormedSubs(d.subs)
  }

  predicate WellFormedSubs(subs: Subs) {
    match subs
    case NoSubs => true
    case Sub(name, dir, rest) => WellFormed(dir) && !HasSub(rest, name) && WellFormedSubs(rest)
  }

  lemma {:induction false} DistinctConcat<T>(a: seq<T>, b: seq<T>)
    requires Distinct(a) && Distinct(b) && forall x | x in a :: x !in b
    ensures Distinct(a + b)
  {
    forall i, j | 0 <= i < j < |a + b| ensures (a + b)[i] != (a + b)[j] {
      if i < |a| <= j { assert a[i] in a && b[j - |a|] in b; }
    }
  }

  lemma {:induction false} FilesOfShape(names: seq<string>, at: Path)
    ensures forall f | f in FilesOf(names, at) :: |f| == |at| + 1 && f[..|at|] == at && f[|at|] in names
    ensures Distinct(names) ==> Distinct(FilesOf(names, at))
  {
    if names != [] {
      FilesOfShape(names[1..], at);
      if Distinct(names) {
        assert forall i | 0 < i < |names| :: names[i] == names[1..][i - 1];
        assert names[0] !in names[1..];
        var head := if SkippedFile(names[0]) then [] else [at + [names[0]]];
        DistinctConcat(head, FilesOf(names[1..], at));
      }
    }
  }

  /** A walk at `at` yields only paths below `at`, each once. */
  lemma {:induction false} WalkShape(d: Dir, at: Path)
    requires WellFormed(d)
    ensures forall f | f in Walk(d, at) :: |f| > |at| && f[..|at|] == at
    ensures Distinct(Walk(d, at))
    decreases d, 1
  {
    if !SkippedDir(at) {
      FilesOfShape(d.files, at);
      WalkSubsShape(d.subs, at);
      DistinctConcat(FilesOf(d.files, at), WalkSubs(d.subs, at));
    }
  }

  lemma {:induction false} WalkSubsShape(subs: Subs, at: Path)
    requires WellFormedSubs(subs)
    ensures forall f | f in WalkSubs(subs, at) :: |f| > |at| + 1 && f[..|at|] == at && HasSub(subs, f[|at|])
    ensures Distinct(WalkSubs(subs, at))
    decreases subs, 0
  {
    match subs
    case NoSubs =>
    case Sub(name, dir, rest) =>
      WalkShape(dir, at + [name]);
      WalkSubsShape(rest, at);
      forall f | f in Walk(dir, at + [name]) ensures f[..|at|] == at && f[|at|] == name {
        assert f[..|at| + 1] == at + [name];
        assert f[..|at|] == f[..|at| + 1][..|at|];
        assert f[|at|] == f[..|at| + 1][|at|];
      }
      DistinctConcat(Walk(dir, at + [name]), WalkSubs(rest, at));
  }

  // ----- Exactly which files are walked -----

  lemma {:induction false} FoundSubIsWellFormed(subs: Subs, name: string)
    requires WellFormedSubs(subs) && FindSub(subs, name).Some?
    ensures WellFormed(FindSub(subs, name).value)
  {
    if subs.name != name { FoundSubIsWellFormed(subs.rest, name); }
  }

  lemma {:induction false} FoundIsWellFormed(d: Dir, path: Path)
    requires WellFormed(d) && Find(d, path).Some?
    ensures WellFormed(Find(d, path).value)
    decreases |path|
  {
    if path != [] {
      FoundSubIsWellFormed(d.subs, path[0]);
      FoundIsWellFormed(FindSub(d.subs, path[0]).value, path[1..]);
    }
  }

  lemma {:induction false} FilesOfExactly(names: seq<string>, at: Path, name: string)
    ensures at + [name] in FilesOf(names, at) <==> name in names && !SkippedFile(name)
  {
    if names != [] {
      FilesOfExactly(names[1..], at, name);
      assert (at + [names[0]])[|at|] == names[0] && (at + [name])[|at|] == name;
    }
  }

  /** A subdirectory yields only paths through itself. */
  lemma {:induction false} OwnPathsOnly(dir: Dir, at: Path, name: string, f: Path)
    requires WellFormed(dir) && |f| > |at| && f[|at|] != name
    ensures f !in Walk(dir, at + [name])
  {
    WalkShape(dir, at + [name]);
    assert (at + [name])[|at|] == name && f[..|at| + 1][|at|] == f[|at|];
  }

  /** Below a directory only the subdirectory of that name yields a path. */
  lemma {:induction false} SubsExactly(subs: Subs, at: Path, f: Path)
    requires WellFormedSubs(subs) && |f| > |at|
    ensures f in WalkSubs(subs, at) <==>
              FindSub(subs, f[|at|]).Some? && f in Walk(FindSub(subs, f[|at|]).value, at + [f[|at|]])
  {
    match subs
    case NoSubs =>
    case Sub(name, dir, rest) =>
      SubsExactly(rest, at, f);
      if f[|at|] != name { OwnPathsOnly(dir, at, name, f); }
  }

  lemma {:induction false} OwnFilesExactly(d: Dir, at: Path, name: string)
    requires WellFormed(d)
    ensures at + [name] in Walk(d, at) <==> !SkippedDir(at) && name in d.files && !SkippedFile(name)
  {
    FilesOfExactly(d.files, at, name);
    WalkSubsShape(d.subs, at);
  }

  lemma {:induction false} DeeperExactly(d: Dir, at: Path, f: Path)
    requires WellFormed(d) && |f| > |at| + 1
    ensures f in Walk(d, at) <==>
              !SkippedDir(at) && FindSub(d.subs, f[|at|]).Some? && f in Walk(FindSub(d.subs, f[|at|]).value, at + [f[|at|]])
  {
    FilesOfShape(d.files, at);
    SubsExactly(d.subs, at, f);
  }

  /** From a directory at `at`: its files that are not skipped by name, and those of
      every directory below it, unless a skipped directory is on the way. */
  lemma {:induction false} WalkedExactly(d: Dir, at: Path, dir: Path, name: string)
    requires WellFormed(d)
    ensures (at + dir) + [name] in Walk(d, at) <==>
              !SkippedDir(at + dir) && Find(d, dir).Some? && name in Find(d, dir).value.files && !SkippedFile(name)
    decreases |dir|
  {
    if dir == [] {
      assert at + dir == at;
      OwnFilesExactly(d, at, name);
    } else {
      var next := at + [dir[0]];
      assert at + dir == next + dir[1..];
      if SkippedDir(at) { SkippedAbove(at, dir); }
      DeeperExactly(d, at, (at + dir) + [name]);
      if FindSub(d.subs, dir[0]).Some? {
        FoundSubIsWellFormed(d.subs, dir[0]);
        WalkedExactly(FindSub(d.subs, dir[0]).value, next, dir[1..], name);
      }
    }
  }

  lemma {:induction false} SkippedAbove(at: Path, dir: Path)
    requires SkippedDir(at)
    ensures SkippedDir(at + dir)
  {
    var name :| name in at && SkippedName(name);
    assert name in at + dir;
  }

  /** Every archivable file and nothing else: a path is walked from the root exactly when
      its directory is there and lists its name, no directory on the way is .git or
      .claude, and the name is none of these nor .DS_Store. */
  lemma {:induction false} ArchivableExactly(tree: Dir, dir: Path, name: string)
    requires WellFormed(tree)
    ensures dir + [name] in Walk(tree, []) <==>
              && Find(tree, dir).Some? && name in Find(tree, dir).value.files
              && name != ".DS_Store" && name != ".git" && name != ".claude"
              && ".git" !in dir && ".claude" !in dir
    ensures [] !in Walk(tree, [])
  {
    assert [] + dir == dir;
    WalkedExactly(tree, [], dir, name);
    WalkShape(tree, []);
    assert SkippedDir(dir) <==> ".git" in dir || ".claude" in dir;
  }

  // ----- In which order -----

  /** `f` may come before `g`: not from below the directory of `g`, and within one
      directory only as the listing has them. */
  ghost predicate InOrder(d: Dir, at: Path, f: Path, g: Path) {
    && |f| > |at| && |g| > |at|
    && var dirF, dirG := f[..|f| - 1], g[..|g| - 1];
       && !(dirG < dirF)
       && (dirF == dirG ==>
             && Find(d, dirF[|at|..]).Some?
             && var files := Find(d, dirF[|at|..]).value.files;
                exists a, b :: 0 <= a < b < |files| && f == dirF + [files[a]] && g == dirG + [files[b]])
  }

  lemma {:induction false} FilesOfInOrder(names: seq<string>, at: Path, i: nat, j: nat) returns (a: nat, b: nat)
    requires i < j < |FilesOf(names, at)|
    ensures a < b < |names| && FilesOf(names, at)[i] == at + [names[a]] && FilesOf(names, at)[j] == at + [names[b]]
  {
    if SkippedFile(names[0]) {
      a, b := FilesOfInOrder(names[1..], at, i, j);
      a, b := a + 1, b + 1;
    } else if i > 0 {
      a, b := FilesOfInOrder(names[1..], at, i - 1, j - 1);
      a, b := a + 1, b + 1;
    } else {
      b := FilesOfAt(names[1..], at, j - 1);
      a, b := 0, b + 1;
    }
  }

  lemma {:induction false} FilesOfAt(names: seq<string>, at: Path, i: nat) returns (a: nat)
    requires i < |FilesOf(names, at)|
    ensures a < |names| && FilesOf(names, at)[i] == at + [names[a]]
  {
    if SkippedFile(names[0]) {
      a := FilesOfAt(names[1..], at, i);
      a := a + 1;
    } else if i > 0 {
      a := FilesOfAt(names[1..], at, i - 1);
      a := a + 1;
    } else {
      a := 0;
    }
  }

  /** `f` and `g`, found in this order below `at`, are in order within their subdirectory
      if they share one. */
  ghost predicate SubsOk(subs: Subs, at: Path, f: Path, g: Path) {
    && |f| > |at| + 1 && |g| > |at| + 1 && f[..|at|] == at && g[..|at|] == at && HasSub(subs, f[|at|])
    && (f[|at|] == g[|at|] ==> InOrder(FindSub(subs, f[|at|]).value, at + [f[|at|]], f, g))
  }

  lemma {:induction false} WalkedThrough(dir: Dir, at: Path, name: string, f: Path)
    requires WellFormed(dir) && f in Walk(dir, at + [name])
    ensures |f| > |at| + 1 && f[..|at|] == at && f[|at|] == name
  {
    WalkShape(dir, at + [name]);
    assert f[..|at| + 1] == at + [name];
    assert f[..|at| + 1][|at|] == f[|at|] && f[..|at| + 1][..|at|] == f[..|at|];
  }

  lemma {:induction false} SubsInOrder(subs: Subs, at: Path, i: nat, j: nat)
    requires WellFormedSubs(subs) && i < j < |WalkSubs(subs, at)|
    ensures SubsOk(subs, at, WalkSubs(subs, at)[i], WalkSubs(subs, at)[j])
    decreases subs, 0
  {
    var Sub(name, dir, others) := subs;
    var first, rest := Walk(dir, at + [name]), WalkSubs(others, at);
    var f, g := WalkSubs(subs, at)[i], WalkSubs(subs, at)[j];
    if i < |first| {
      assert f == first[i];
      WalkedThrough(dir, at, name, f);
    }
    if j < |first| {
      assert g == first[j];
      WalkedThrough(dir, at, name, g);
      WalkInOrder(dir, at + [name], i, j);
    } else if i < |first| {
      assert g == rest[j - |first|] && g in rest;
      WalkSubsShape(others, at);
    } else {
      assert f == rest[i - |first|] && g == rest[j - |first|];
      SubsInOrder(others, at, i - |first|, j - |first|);
    }
  }

  /** A walk is top down: a directory's own files come before everything below it, in
      the sorted order of its listing. */
  lemma {:induction false} WalkInOrder(d: Dir, at: Path, i: nat, j: nat)
    requires WellFormed(d) && i < j < |Walk(d, at)|
    ensures InOrder(d, at, Walk(d, at)[i], Walk(d, at)[j])
    decreases d, 1
  {
    var own, below := FilesOf(d.files, at), WalkSubs(d.subs, at);
    var f, g := Walk(d, at)[i], Walk(d, at)[j];
    if j < |own| {
      var a, b := FilesOfInOrder(d.files, at, i, j);
      assert f[..|f| - 1] == at && g[..|g| - 1] == at && at[|at|..] == [];
    } else if i < |own| {
      var a := FilesOfAt(d.files, at, i);
      WalkSubsShape(d.subs, at);
      assert g == below[j - |own|] && g in below;
    } else {
      assert f == below[i - |own|] && g == below[j - |own|];
      SubsInOrder(d.subs, at, i - |own|, j - |own|);
      DeeperInOrder(d, at, f, g);
    }
  }

  lemma {:induction false} DeeperInOrder(d: Dir, at: Path, f: Path, g: Path)
    requires |f| > |at| + 1 && |g| > |at| + 1 && f[..|at|] == at && g[..|at|] == at && HasSub(d.subs, f[|at|])
    requires f[|at|] == g[|at|] ==> InOrder(FindSub(d.subs, f[|at|]).value, at + [f[|at|]], f, g)
    ensures InOrder(d, at, f, g)
  {
    var dirF, dirG := f[..|f| - 1], g[..|g| - 1];
    assert dirF[|at|] == f[|at|] && dirG[|at|] == g[|at|];
    assert dirG <= dirF ==> dirG[|at|] == dirF[|at|];
    if f[|at|] == g[|at|] {
      assert dirF[|at|..][1..] == dirF[|at| + 1..] && dirF[|at|..][0] == f[|at|];
    }
  }
}
