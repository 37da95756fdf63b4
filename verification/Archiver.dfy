/** The resumable archiver. */
module Archiver {
  // scripts/_drive_common.py and scripts/archive_chris_experiments_to_drive.py.

  import opened Common
  import opened FileTree

  type FolderId = nat

  datatype Entry = Entry(file: nat, size: nat)

  /** A file created on Drive, by its source path and the folder it went into. */
  datatype DriveFile = DriveFile(path: Path, folder: FolderId)

  /** The folders created so far by parent and name, the folder everything goes
      under, and the next unused folder id. */
  datatype FolderTable = FolderTable(root: FolderId, ids: map<(FolderId, string), FolderId>, next: FolderId)

  /** Every folder is newer than its parent, older than `next`, and in one place only. */
  predicate FoldersOk(t: FolderTable) {
    && t.root < t.next
    && (forall k | k in t.ids :: k.0 < t.ids[k] < t.next)
    && (forall k, l | k in t.ids && l in t.ids && t.ids[k] == t.ids[l] :: k == l)
  }

  type Drive = t: FolderTable | FoldersOk(t) witness FolderTable(0, map[], 1)

  /** The Drive folder that a directory path leads to from the root, if created. */
  function Resolve(drive: FolderTable, path: Path): Option<FolderId> {
    if path == [] then Some(drive.root) else
      match Resolve(drive, path[..|path| - 1])
      case None => None
      case Some(parent) =>
        var key := (parent, path[|path| - 1]);
        if key in drive.ids then Some(drive.ids[key]) else None
  }

  predicate Grows(before: FolderTable, after: FolderTable) {
    && after.root == before.root
    && forall k | k in before.ids :: k in after.ids && after.ids[k] == before.ids[k]
  }

  /** Folders are never renamed or removed, so a resolved path stays resolved. */
  lemma {:induction false} ResolveIsStable(before: FolderTable, after: FolderTable, path: Path)
    requires Grows(before, after) && Resolve(before, path).Some?
    ensures Resolve(after, path) == Resolve(before, path)
    decreases |path|
  {
    if path != [] { ResolveIsStable(before, after, path[..|path| - 1]); }
  }

  lemma {:induction false} ResolveBounded(drive: Drive, path: Path)
    requires Resolve(drive, path).Some?
    ensures drive.root <= Resolve(drive, path).value < drive.next
    ensures path != [] ==> drive.root < Resolve(drive, path).value
    decreases |path|
  {
    if path != [] { ResolveBounded(drive, path[..|path| - 1]); }
  }

  /** Two directories never share a Drive folder. */
  lemma {:induction false} ResolveIsInjective(drive: Drive, p: Path, q: Path)
    requires Resolve(drive, p).Some? && Resolve(drive, p) == Resolve(drive, q)
    ensures p == q
    decreases |p|
  {
    ResolveBounded(drive, p);
    ResolveBounded(drive, q);
    if p != [] && q != [] {
      ResolveIsInjective(drive, p[..|p| - 1], q[..|q| - 1]);
      assert p == p[..|p| - 1] + [p[|p| - 1]] && q == q[..|q| - 1] + [q[|q| - 1]];
    }
  }

  /** Every cached directory is the Drive folder its path resolves to. */
  predicate CacheOk(cache: map<Path, FolderId>, drive: FolderTable) {
    forall p | p in cache :: Resolve(drive, p) == Some(cache[p])
  }

  lemma {:induction false} CacheIsStable(cache: map<Path, FolderId>, before: FolderTable, after: FolderTable)
    requires Grows(before, after) && CacheOk(cache, before)
    ensures CacheOk(cache, after)
  {
    forall p | p in cache ensures Resolve(after, p) == Some(cache[p]) { ResolveIsStable(before, after, p); }
  }

  // ----- What a pass uploads -----

  lemma {:induction false} TakeNext<T>(s: seq<T>, i: nat)
    requires i < |s|
    ensures s[i] in s && s[..i + 1] == s[..i] + [s[i]] && s[..i + 1][..i] == s[..i]
  {
  }

  /** The files a pass over `items` uploads when `recorded` is already in the manifest. */
  function Uploads(items: seq<Path>, recorded: set<Path>): seq<Path> {
    if items == [] then []
    else if items[0] in recorded then Uploads(items[1..], recorded)
    else [items[0]] + Uploads(items[1..], recorded + {items[0]})
  }

  lemma {:induction false} UploadsAppend(items: seq<Path>, p: Path, recorded: set<Path>)
    ensures Uploads(items + [p], recorded)
         == Uploads(items, recorded) + if p in recorded + SetOf(items) then [] else [p]
    decreases |items|
  {
    if items == [] {
      assert items + [p] == [p];
    } else {
      assert (items + [p])[1..] == items[1..] + [p];
      assert SetOf(items) == {items[0]} + SetOf(items[1..]);
      if items[0] in recorded {
        UploadsAppend(items[1..], p, recorded);
      } else {
        UploadsAppend(items[1..], p, recorded + {items[0]});
        assert recorded + SetOf(items) == recorded + {items[0]} + SetOf(items[1..]);
      }
    }
  }

  lemma {:induction false} UploadsConcat(a: seq<Path>, b: seq<Path>, recorded: set<Path>)
    ensures Uploads(a + b, recorded) == Uploads(a, recorded) + Uploads(b, recorded + SetOf(a))
    ensures SetOf(a + b) == SetOf(a) + SetOf(b)
  {
    if a == [] {
      assert a + b == b && recorded + SetOf(a) == recorded;
    } else {
      assert (a + b)[1..] == a[1..] + b;
      assert SetOf(a) == {a[0]} + SetOf(a[1..]);
      if a[0] in recorded {
        UploadsConcat(a[1..], b, recorded);
        assert recorded + SetOf(a[1..]) == recorded + SetOf(a);
      } else {
        UploadsConcat(a[1..], b, recorded + {a[0]});
        assert recorded + {a[0]} + SetOf(a[1..]) == recorded + SetOf(a);
      }
    }
  }

  /** A pass uploads exactly the files not recorded yet, each once. */
  lemma {:induction false} UploadsAreTheMissing(items: seq<Path>, recorded: set<Path>)
    ensures SetOf(Uploads(items, recorded)) == SetOf(items) - recorded
    ensures |Uploads(items, recorded)| == |SetOf(items) - recorded|
  {
    if items != [] {
      var p, rest := items[0], items[1..];
      SetOfCons(p, rest);
      assert items == [p] + rest;
      if p in recorded {
        UploadsAreTheMissing(rest, recorded);
        assert SetOf(items) - recorded == SetOf(rest) - recorded;
      } else {
        UploadsAreTheMissing(rest, recorded + {p});
        SetOfCons(p, Uploads(rest, recorded + {p}));
        var others := SetOf(rest) - (recorded + {p});
        assert SetOf(items) - recorded == {p} + others;
        assert |{p} + others| == 1 + |others|;
      }
    }
  }

  lemma {:induction false} SetOfCons(p: Path, rest: seq<Path>)
    ensures SetOf([p] + rest) == {p} + SetOf(rest)
  {
  }

  function Size(sizes: Path -> nat, items: seq<Path>): nat {
    if items == [] then 0 else Size(sizes, items[..|items| - 1]) + sizes(items[|items| - 1])
  }

  function Parent(p: Path): Path {
    if p == [] then [] else p[..|p| - 1]
  }

  lemma {:induction false} SizeAppend(sizes: Path -> nat, items: seq<Path>, p: Path)
    ensures Size(sizes, items + [p]) == Size(sizes, items) + sizes(p)
  {
    assert (items + [p])[..|items|] == items;
  }

  lemma {:induction false} SizeConcat(sizes: Path -> nat, a: seq<Path>, b: seq<Path>)
    ensures Size(sizes, a + b) == Size(sizes, a) + Size(sizes, b)
    decreases |b|
  {
    if b == [] {
      assert a + b == a;
    } else {
      SizeConcat(sizes, a, b[..|b| - 1]);
      assert (a + b)[..|a + b| - 1] == a + b[..|b| - 1];
    }
  }

  /** The Drive file holds `item`, in the folder its directory resolves to. */
  predicate FiledUnder(f: DriveFile, item: Path, drive: FolderTable) {
    f.path == item && Resolve(drive, Parent(item)) == Some(f.folder)
  }

  /** `after` is `before` plus one Drive file for each of `sent`, in order. */
  predicate Filed(before: seq<DriveFile>, after: seq<DriveFile>, sent: seq<Path>, drive: FolderTable) {
    && |after| == |before| + |sent| && after[..|before|] == before
    && forall i | 0 <= i < |sent| :: FiledUnder(after[|before| + i], sent[i], drive)
  }

  lemma {:induction false} FiledThen(a: seq<DriveFile>, b: seq<DriveFile>, c: seq<DriveFile>, first: seq<Path>,
                                     second: seq<Path>, before: FolderTable, after: FolderTable)
    requires Filed(a, b, first, before) && Filed(b, c, second, after) && Grows(before, after)
    ensures Filed(a, c, first + second, after)
  {
    assert c[..|a|] == b[..|a|];
    forall i | 0 <= i < |first + second| ensures FiledUnder(c[|a| + i], (first + second)[i], after) {
      if i < |first| {
        assert c[|a| + i] == c[..|b|][|a| + i];
        assert FiledUnder(b[|a| + i], first[i], before);
        ResolveIsStable(before, after, Parent(first[i]));
      } else {
        assert FiledUnder(c[|b| + (i - |first|)], second[i - |first|], after);
      }
    }
  }

  /** The upload mirrors the tree: two of its files share a Drive folder exactly
      when they share a directory. */
  lemma {:induction false} FolderPerDirectory(before: seq<DriveFile>, after: seq<DriveFile>, sent: seq<Path>,
                                              drive: Drive, i: nat, j: nat)
    requires Filed(before, after, sent, drive) && i < |sent| && j < |sent|
    ensures after[|before| + i].folder == after[|before| + j].folder <==> Parent(sent[i]) == Parent(sent[j])
  {
    assert FiledUnder(after[|before| + i], sent[i], drive);
    assert FiledUnder(after[|before| + j], sent[j], drive);
    if after[|before| + i].folder == after[|before| + j].folder {
      ResolveIsInjective(drive, Parent(sent[i]), Parent(sent[j]));
    }
  }

  // ----- The manifest -----

  /** The sizes of the files on disk, the files on Drive, and the JSON manifest. */
  datatype Books = Books(sizes: Path -> nat, files: seq<DriveFile>, manifest: map<Path, Entry>)

  /** Every entry names a Drive file of its path and holds the size of that path. */
  predicate ManifestOk(b: Books) {
    forall p | p in b.manifest ::
      && b.manifest[p].file < |b.files|
      && b.files[b.manifest[p].file].path == p
      && b.manifest[p].size == b.sizes(p)
  }

  type Ledger = b: Books | ManifestOk(b) witness Books(_ => 0, [], map[])

  /** Where a pass stands after `items`: what it sent, what the manifest holds now,
      and its two counters. */
  ghost predicate Passed(start: Books, now: Books, items: seq<Path>, drive: FolderTable, count: nat, bytes: nat) {
    var had := start.manifest.Keys;
    var sent := Uploads(items, had);
    && now.sizes == start.sizes && now.manifest.Keys == had + SetOf(items)
    && count == |sent| && bytes == Size(start.sizes, sent)
    && Filed(start.files, now.files, sent, drive)
  }

  lemma {:induction false} PassSkips(start: Books, now: Books, items: seq<Path>, item: Path, drive: FolderTable, count: nat, bytes: nat)
    requires Passed(start, now, items, drive, count, bytes) && item in now.manifest
    ensures Passed(start, now, items + [item], drive, count, bytes)
  {
    var had := start.manifest.Keys;
    UploadsAppend(items, item, had);
    assert Uploads(items + [item], had) == Uploads(items, had);
    assert had + SetOf(items + [item]) == now.manifest.Keys;
  }

  /** `after` is `before` with `item` filed and recorded. */
  ghost predicate Sent(before: Books, after: Books, item: Path, drive: FolderTable) {
    && after.sizes == before.sizes
    && after.manifest.Keys == before.manifest.Keys + {item}
    && |after.files| == |before.files| + 1 && after.files[..|before.files|] == before.files
    && FiledUnder(after.files[|before.files|], item, drive)
  }

  lemma {:induction false} FiledOne(before: Books, after: Books, item: Path, drive: FolderTable)
    requires Sent(before, after, item, drive)
    ensures Filed(before.files, after.files, [item], drive)
  {
  }

  lemma {:induction false} PassSends(start: Books, mid: Books, now: Books, items: seq<Path>, item: Path,
                                     before: FolderTable, after: FolderTable, count: nat, bytes: nat)
    requires Passed(start, mid, items, before, count, bytes) && item !in mid.manifest
    requires Grows(before, after) && Sent(mid, now, item, after)
    ensures Passed(start, now, items + [item], after, count + 1, bytes + start.sizes(item))
  {
    var had := start.manifest.Keys;
    var sent := Uploads(items, had);
    UploadsAppend(items, item, had);
    assert had + SetOf(items + [item]) == mid.manifest.Keys + {item};
    FiledOne(mid, now, item, after);
    FiledThen(start.files, mid.files, now.files, sent, [item], before, after);
    SizeAppend(start.sizes, sent, item);
  }

  /** A pass after the work `done` adds up to one longer pass. */
  lemma {:induction false} PassFollows(a: Books, b: Books, c: Books, done: seq<Path>, work: seq<Path>,
                                       before: FolderTable, after: FolderTable, count: nat, bytes: nat, more: nat, moreBytes: nat)
    requires Grows(before, after)
    requires Passed(a, b, done, before, count, bytes) && Passed(b, c, work, after, more, moreBytes)
    ensures Passed(a, c, done + work, after, count + more, bytes + moreBytes)
  {
    var had, keys := a.manifest.Keys, b.manifest.Keys;
    UploadsConcat(done, work, had);
    FiledThen(a.files, b.files, c.files, Uploads(done, had), Uploads(work, keys), before, after);
    SizeConcat(a.sizes, Uploads(done, had), Uploads(work, keys));
    assert had + SetOf(done + work) == had + SetOf(done) + SetOf(work);
  }

  /** The books after creating a file on Drive. */
  function Stored(b: Ledger, item: Path, folder: FolderId): (r: Ledger)
    ensures r.sizes == b.sizes && r.files == b.files + [DriveFile(item, folder)] && r.manifest == b.manifest
  {
    Books(b.sizes, b.files + [DriveFile(item, folder)], b.manifest)
  }

  /** The books after recording such a file in the manifest. */
  function Recorded(b: Ledger, item: Path, file: nat): (r: Ledger)
    requires file < |b.files| && b.files[file].path == item
    ensures r.sizes == b.sizes && r.files == b.files && r.manifest.Keys == b.manifest.Keys + {item}
  {
    var manifest := b.manifest[item := Entry(file, b.sizes(item))];
    assert manifest.Keys == b.manifest.Keys + {item};
    Books(b.sizes, b.files, manifest)
  }

  // ----- Verification -----

  /** verify_directory's answer; the missing files are listed as a set. */
  datatype Report = Report(localCount: nat, localBytes: nat, manifestCount: nat, manifestBytes: int, missing: set<Path>)

  function Below(recorded: set<Path>, base: Path): set<Path> { set p | p in recorded && base <= p }

  function InBytes(sizes: Path -> nat): Path -> int { p => sizes(p) }

  ghost function ReportOf(items: seq<Path>, base: Path, recorded: set<Path>, sizes: Path -> nat): Report {
    Report(|SetOf(items)|, Size(sizes, items), |Below(recorded, base)|, SumOver(InBytes(sizes), Below(recorded, base)),
           SetOf(items) - Below(recorded, base))
  }

  lemma {:induction false} TotalOfDistinct(sizes: Path -> nat, items: seq<Path>)
    requires Distinct(items)
    ensures SumOver(InBytes(sizes), SetOf(items)) == Size(sizes, items)
    decreases |items|
  {
    if items != [] {
      var init, last := items[..|items| - 1], items[|items| - 1];
      TotalOfDistinct(sizes, init);
      assert last in items && items == init + [last];
      assert SetOf(items) - {last} == SetOf(init);
      SumTakes(InBytes(sizes), SetOf(items), last);
    }
  }

  /** For a directory of the tree, verify_directory finds nothing missing exactly
      when every archivable file is recorded; and once the manifest holds exactly
      the tree's files there, both counts and both byte totals agree as well. */
  lemma {:induction false} ReportIsClean(tree: Dir, base: Path, recorded: set<Path>, sizes: Path -> nat)
    requires WellFormed(tree) && Find(tree, base).Some?
    ensures var items := Walk(Find(tree, base).value, base);
      && (ReportOf(items, base, recorded, sizes).missing == {} <==> SetOf(items) <= recorded)
      && (Below(recorded, base) == SetOf(items) ==>
            ReportOf(items, base, recorded, sizes) == Report(|items|, Size(sizes, items), |items|, Size(sizes, items), {}))
  {
    var items := Walk(Find(tree, base).value, base);
    var report := ReportOf(items, base, recorded, sizes);
    FoundIsWellFormed(tree, base);
    WalkShape(Find(tree, base).value, base);
    TotalOfDistinct(sizes, items);
    DistinctCount(items);
    assert forall p | p in SetOf(items) :: base <= p;
    assert SetOf(items) <= recorded <==> SetOf(items) <= Below(recorded, base);
    assert report.missing == SetOf(items) - Below(recorded, base);
    assert forall p | p in SetOf(items) :: p in Below(recorded, base) || p in report.missing;
  }

  lemma {:induction false} DistinctCount(items: seq<Path>)
    requires Distinct(items)
    ensures |SetOf(items)| == |items|
    decreases |items|
  {
    if items != [] {
      var init, last := items[..|items| - 1], items[|items| - 1];
      DistinctCount(init);
      assert SetOf(items) == SetOf(init) + {last};
    }
  }

  // ----- The script -----

  class Archive {
    var drive: Drive
    var ledger: Ledger

    constructor (root: FolderId, sizes: Path -> nat)
      ensures drive.root == root && drive.ids == map[]
      ensures ledger == Books(sizes, [], map[])
    {
      drive := FolderTable(root, map[], root + 1);
      ledger := Books(sizes, [], map[]);
    }

    /** Get or create by (name, parent): a new folder gets an id never used before. */
    method EnsureFolder(name: string, parent: FolderId) returns (id: FolderId)
      requires parent < drive.next
      modifies this`drive
      ensures Grows(old(drive), drive)
      ensures drive.ids == old(drive).ids[(parent, name) := id]
      ensures if (parent, name) in old(drive).ids then drive == old(drive) else id >= old(drive).next
    {
      if (parent, name) in drive.ids { return drive.ids[(parent, name)]; }
      id := drive.next;
      drive := FolderTable(drive.root, drive.ids[(parent, name) := id], id + 1);
    }

    /** One level down: the folder `path` stands for, given its parent's. */
    method EnsureChild(path: Path, parent: FolderId) returns (id: FolderId)
      requires path != [] && Resolve(drive, Parent(path)) == Some(parent)
      modifies this`drive
      ensures Grows(old(drive), drive) && Resolve(drive, path) == Some(id)
    {
      ghost var before := drive;
      ResolveBounded(drive, Parent(path));
      id := EnsureFolder(path[|path| - 1], parent);
      ResolveIsStable(before, drive, Parent(path));
    }

    /** ensure_folder_path: down a chain of path components, without a cache. */
    method EnsureFolderPath(parts: Path) returns (id: FolderId)
      modifies this`drive
      ensures Grows(old(drive), drive) && Resolve(drive, parts) == Some(id)
      ensures Resolve(old(drive), parts).Some? ==> id == Resolve(old(drive), parts).value
    {
      id := drive.root;
      var i := 0;
      while i < |parts|
        invariant 0 <= i <= |parts|
        invariant Grows(old(drive), drive) && Resolve(drive, parts[..i]) == Some(id)
      {
        TakeNext(parts, i);
        id := EnsureChild(parts[..i + 1], id);
        i := i + 1;
      }
      assert parts[..|parts|] == parts;
      if Resolve(old(drive), parts).Some? { ResolveIsStable(old(drive), drive, parts); }
    }

    /** One component of the loop below: from the cache, else ensured and cached. */
    method CachedChild(cache: map<Path, FolderId>, accumulated: Path, parent: FolderId)
      returns (id: FolderId, cache': map<Path, FolderId>)
      requires accumulated != [] && Resolve(drive, Parent(accumulated)) == Some(parent) && CacheOk(cache, drive)
      modifies this`drive
      ensures Grows(old(drive), drive) && CacheOk(cache', drive) && Resolve(drive, accumulated) == Some(id)
    {
      if accumulated in cache { return cache[accumulated], cache; }
      ghost var before := drive;
      id := EnsureChild(accumulated, parent);
      CacheIsStable(cache, before, drive);
      cache' := cache[accumulated := id];
    }

    /** The closure of run_archive: each path component in turn, cached by the
        accumulated path. */
    method FolderForRelativePath(cache: map<Path, FolderId>, path: Path)
      returns (id: FolderId, cache': map<Path, FolderId>)
      requires CacheOk(cache, drive)
      modifies this`drive
      ensures Grows(old(drive), drive) && CacheOk(cache', drive)
      ensures Resolve(drive, path) == Some(id)
    {
      cache' := cache;
      if path in cache' { return cache'[path], cache'; }
      id := drive.root;
      var i := 0;
      while i < |path|
        invariant 0 <= i <= |path|
        invariant Grows(old(drive), drive) && CacheOk(cache', drive)
        invariant Resolve(drive, path[..i]) == Some(id)
      {
        TakeNext(path, i);
        id, cache' := CachedChild(cache', path[..i + 1], id);
        i := i + 1;
      }
      assert path[..|path|] == path;
    }

    /** upload_directory's closure: climb to a cached ancestor, then create down. */
    method FolderFor(cache: map<Path, FolderId>, base: Path, path: Path)
      returns (id: FolderId, cache': map<Path, FolderId>)
      requires base <= path && base in cache && CacheOk(cache, drive)
      modifies this`drive
      ensures Grows(old(drive), drive) && CacheOk(cache', drive)
      ensures base in cache'
      ensures Resolve(drive, path) == Some(id)
      decreases |path|
    {
      if path in cache { return cache[path], cache; }
      assert path != base;
      var parentId: FolderId;
      parentId, cache' := FolderFor(cache, base, Parent(path));
      ghost var before := drive;
      id := EnsureChild(path, parentId);
      CacheIsStable(cache', before, drive);
      cache' := cache'[path := id];
    }

    method UploadFile(item: Path, folder: FolderId) returns (file: nat)
      modifies this`ledger
      ensures ledger == Stored(old(ledger), item, folder) && file == |old(ledger).files|
    {
      file := |ledger.files|;
      ledger := Stored(ledger, item, folder);
    }

    /** Manifest.record, whose rewrite of the JSON file is taken apart in ArchiveRuns. */
    method Record(item: Path, file: nat)
      requires file < |ledger.files| && ledger.files[file].path == item
      modifies this`ledger
      ensures ledger == Recorded(old(ledger), item, file)
    {
      ledger := Recorded(ledger, item, file);
    }

    /** One file: into the folder of its own directory, recorded right after. */
    method SendFile(cache: map<Path, FolderId>, base: Path, item: Path) returns (cache': map<Path, FolderId>)
      requires base <= Parent(item) && base in cache && CacheOk(cache, drive)
      modifies this
      ensures Grows(old(drive), drive) && CacheOk(cache', drive) && base in cache'
      ensures Sent(old(ledger), ledger, item, drive)
    {
      var folder: FolderId;
      folder, cache' := FolderFor(cache, base, Parent(item));
      var file := UploadFile(item, folder);
      Record(item, file);
    }

    /** One item of a pass: skipped when the manifest holds it, else sent. */
    method UploadItem(cache: map<Path, FolderId>, base: Path, item: Path, count: nat, bytes: nat,
                      ghost start: Books, ghost items: seq<Path>)
      returns (cache': map<Path, FolderId>, count': nat, bytes': nat)
      requires base <= Parent(item) && base in cache && CacheOk(cache, drive)
      requires Passed(start, ledger, items, drive, count, bytes)
      modifies this
      ensures Grows(old(drive), drive) && CacheOk(cache', drive) && base in cache'
      ensures Passed(start, ledger, items + [item], drive, count', bytes')
    {
      if item in ledger.manifest {
        PassSkips(start, ledger, items, item, drive, count, bytes);
        return cache, count, bytes;
      }
      ghost var before := ledger;
      cache' := SendFile(cache, base, item);
      PassSends(start, before, ledger, items, item, old(drive), drive, count, bytes);
      count', bytes' := count + 1, bytes + ledger.sizes(item);
    }

    /** Uploads what the manifest does not hold yet. */
    method UploadDirectory(base: Path, driveParent: FolderId, items: seq<Path>) returns (count: nat, bytes: nat)
      requires Resolve(drive, base) == Some(driveParent)
      requires forall p | p in items :: base <= Parent(p)
      modifies this
      ensures Grows(old(drive), drive)
      ensures Passed(old(ledger), ledger, items, drive, count, bytes)
    {
      count, bytes := 0, 0;
      var cache: map<Path, FolderId> := map[base := driveParent];
      var i := 0;
      while i < |items|
        invariant 0 <= i <= |items|
        invariant base in cache && CacheOk(cache, drive) && Grows(old(drive), drive)
        invariant Passed(old(ledger), ledger, items[..i], drive, count, bytes)
      {
        TakeNext(items, i);
        cache, count, bytes := UploadItem(cache, base, items[i], count, bytes, old(ledger), items[..i]);
        i := i + 1;
      }
      assert items[..|items|] == items;
    }

    /** One INDEX.md path: its folder, then its files; skipped when not a directory. */
    method ArchivePath(cache: map<Path, FolderId>, tree: Dir, path: Path)
      returns (cache': map<Path, FolderId>, count: nat, bytes: nat)
      requires WellFormed(tree) && CacheOk(cache, drive)
      modifies this
      ensures Grows(old(drive), drive) && CacheOk(cache', drive)
      ensures Passed(old(ledger), ledger, OnePath(tree, path), drive, count, bytes)
    {
      var found := Find(tree, path);
      if found.None? { return cache, 0, 0; }
      var folder: FolderId;
      folder, cache' := FolderForRelativePath(cache, path);
      ghost var before := drive;
      FoundIsWellFormed(tree, path);
      WalkShape(found.value, path);
      count, bytes := UploadDirectory(path, folder, Walk(found.value, path));
      CacheIsStable(cache', before, drive);
    }

    /** The loop over INDEX.md paths, with the closure's folder cache. */
    method ArchivePaths(tree: Dir, paths: seq<Path>) returns (totalFiles: nat, totalBytes: nat)
      requires WellFormed(tree)
      modifies this
      ensures Grows(old(drive), drive)
      ensures Passed(old(ledger), ledger, PathWork(tree, paths), drive, totalFiles, totalBytes)
    {
      totalFiles, totalBytes := 0, 0;
      var cache: map<Path, FolderId> := map[];
      var i := 0;
      while i < |paths|
        invariant 0 <= i <= |paths|
        invariant CacheOk(cache, drive) && Grows(old(drive), drive)
        invariant Passed(old(ledger), ledger, PathWork(tree, paths[..i]), drive, totalFiles, totalBytes)
      {
        ghost var before, mid := drive, ledger;
        var count: nat, bytes: nat;
        cache, count, bytes := ArchivePath(cache, tree, paths[i]);
        PassFollows(old(ledger), mid, ledger, PathWork(tree, paths[..i]), OnePath(tree, paths[i]), before, drive,
                    totalFiles, totalBytes, count, bytes);
        assert paths[..i + 1][..i] == paths[..i];
        totalFiles, totalBytes := totalFiles + count, totalBytes + bytes;
        i := i + 1;
      }
      assert paths[..|paths|] == paths;
    }

    /** The per-path passes and then the catch-all pass over the whole tree. */
    method RunArchive(tree: Dir, paths: seq<Path>) returns (totalFiles: nat, totalBytes: nat)
      requires WellFormed(tree)
      modifies this
      ensures Grows(old(drive), drive)
      ensures Passed(old(ledger), ledger, Work(tree, paths), drive, totalFiles, totalBytes)
    {
      totalFiles, totalBytes := ArchivePaths(tree, paths);
      WalkShape(tree, []);
      ghost var before, mid := drive, ledger;
      var count, bytes := UploadDirectory([], drive.root, Walk(tree, []));
      PassFollows(old(ledger), mid, ledger, PathWork(tree, paths), Walk(tree, []), before, drive,
                  totalFiles, totalBytes, count, bytes);
      totalFiles, totalBytes := totalFiles + count, totalBytes + bytes;
    }

    /** What is on disk below `base` against what the manifest recorded there. */
    method VerifyDirectory(base: Path, items: seq<Path>) returns (report: Report)
      requires forall p | p in items :: base <= p
      ensures report == ReportOf(items, base, ledger.manifest.Keys, ledger.sizes)
      ensures report.missing == set p | p in items && p !in ledger.manifest
      ensures report.localCount == |set p | p in items| && report.manifestCount == |set p | p in ledger.manifest && base <= p|
      ensures report.manifestBytes == SumOver(InBytes(ledger.sizes), set p | p in ledger.manifest && base <= p)
    {
      var localRelatives := SetOf(items);
      var localBytes := Size(ledger.sizes, items);
      var manifestRelatives := set p | p in ledger.manifest && base <= p;
      assert manifestRelatives == Below(ledger.manifest.Keys, base);
      var manifestBytes: int := 0;
      var todo := manifestRelatives;
      while todo != {}
        invariant todo <= manifestRelatives
        invariant manifestBytes + SumOver(InBytes(ledger.sizes), todo) == SumOver(InBytes(ledger.sizes), manifestRelatives)
        decreases |todo|
      {
        var p :| p in todo;
        SumTakes(InBytes(ledger.sizes), todo, p);
        manifestBytes := manifestBytes + ledger.manifest[p].size;
        todo := todo - {p};
      }
      report := Report(|localRelatives|, localBytes, |manifestRelatives|, manifestBytes, localRelatives - manifestRelatives);
    }
  }

  /** What one run of the script goes through, in order. */
  function PathWork(tree: Dir, paths: seq<Path>): seq<Path> {
    if paths == [] then [] else
      PathWork(tree, paths[..|paths| - 1]) + OnePath(tree, paths[|paths| - 1])
  }

  /** The files of one INDEX.md path; none when it is not a directory. */
  function OnePath(tree: Dir, path: Path): seq<Path> {
    match Find(tree, path) case None => [] case Some(sub) => Walk(sub, path)
  }

  function Work(tree: Dir, paths: seq<Path>): seq<Path> {
    PathWork(tree, paths) + Walk(tree, [])
  }

  /** The indexed paths are gone through in their order, each contributing its walk. */
  lemma {:induction false} PathWorkInOrder(tree: Dir, paths: seq<Path>, i: nat)
    requires i < |paths|
    ensures PathWork(tree, []) == []
    ensures var walk := if Find(tree, paths[i]).Some? then Walk(Find(tree, paths[i]).value, paths[i]) else [];
      PathWork(tree, paths[..i + 1]) == PathWork(tree, paths[..i]) + walk
  {
    assert paths[..i + 1][..i] == paths[..i];
  }

  /** The per-path passes never leave the tree: a run's work is the tree's files. */
  lemma {:induction false} WorkIsTheTree(tree: Dir, paths: seq<Path>)
    ensures SetOf(PathWork(tree, paths)) <= SetOf(Walk(tree, []))
    ensures SetOf(Work(tree, paths)) == SetOf(Walk(tree, []))
    decreases |paths|
  {
    if paths != [] {
      var path := paths[|paths| - 1];
      WorkIsTheTree(tree, paths[..|paths| - 1]);
      if Find(tree, path).Some? {
        forall f | f in Walk(Find(tree, path).value, path) ensures f in Walk(tree, []) {
          assert [] + path == path;
          SubtreeIsWalked(tree, path, [], f);
        }
      }
    }
  }

  // ----- After an uninterrupted run -----

  /** In terms of the script's own calls: after one uninterrupted run on a manifest
      of this tree, verify_directory reports the whole tree recorded, with equal
      counts and bytes. */
  lemma {:induction false} FullRunVerifiesClean(tree: Dir, paths: seq<Path>, start: Books, now: Books, drive: FolderTable,
                                                count: nat, bytes: nat)
    requires WellFormed(tree) && start.manifest.Keys <= SetOf(Walk(tree, []))
    requires Passed(start, now, Work(tree, paths), drive, count, bytes)
    ensures var items := Walk(tree, []);
      ReportOf(items, [], now.manifest.Keys, now.sizes)
        == Report(|items|, Size(now.sizes, items), |items|, Size(now.sizes, items), {})
  {
    var items := Walk(tree, []);
    WorkIsTheTree(tree, paths);
    assert Below(now.manifest.Keys, []) == SetOf(items);
    assert Find(tree, []) == Some(tree);
    ReportIsClean(tree, [], now.manifest.Keys, now.sizes);
  }

  /** And a further run, over any indexed paths, uploads (0, 0) and creates no file. */
  lemma {:induction false} RerunUploadsNothing(tree: Dir, paths: seq<Path>, start: Books, now: Books, drive: FolderTable,
                                               count: nat, bytes: nat, paths': seq<Path>, later: Books,
                                               drive': FolderTable, count': nat, bytes': nat)
    requires Passed(start, now, Work(tree, paths), drive, count, bytes)
    requires Passed(now, later, Work(tree, paths'), drive', count', bytes')
    ensures count' == 0 && bytes' == 0 && later.files == now.files
  {
    WorkIsTheTree(tree, paths);
    WorkIsTheTree(tree, paths');
    var sent := Uploads(Work(tree, paths'), now.manifest.Keys);
    UploadsAreTheMissing(Work(tree, paths'), now.manifest.Keys);
    assert SetOf(Work(tree, paths')) - now.manifest.Keys == {};
    assert |sent| == 0;
    assert later.files == later.files[..|now.files|];
  }

  // ----- The catch-all pass -----

  /** compute_residual_files: the walk of the root minus every per-path walk. */
  function Residual(tree: Dir, paths: seq<Path>): seq<Path> {
    Filter((p: Path) => p !in SetOf(PathWork(tree, paths)), Walk(tree, []))
  }

  lemma {:induction false} DistinctUploads(items: seq<Path>, recorded: set<Path>, extra: set<Path>)
    requires Distinct(items) && forall p | p in items :: p !in extra
    ensures Uploads(items, recorded + extra) == Filter((p: Path) => p !in recorded, items)
    decreases |items|
  {
    if items != [] {
      var p, rest := items[0], items[1..];
      assert p in items;
      assert forall i | 0 <= i < |rest| :: rest[i] == items[i + 1];
      assert p !in rest;
      forall q | q in rest ensures q in items {}
      if p in recorded {
        DistinctUploads(rest, recorded, extra);
      } else {
        DistinctUploads(rest, recorded, extra + {p});
        assert recorded + extra + {p} == recorded + (extra + {p});
      }
    }
  }

  /** On a fresh manifest the catch-all pass uploads exactly the residual files, in order. */
  lemma {:induction false} CatchAllUploadsResidual(tree: Dir, paths: seq<Path>)
    requires WellFormed(tree)
    ensures Uploads(Work(tree, paths), {}) == Uploads(PathWork(tree, paths), {}) + Residual(tree, paths)
  {
    var covered := SetOf(PathWork(tree, paths));
    UploadsConcat(PathWork(tree, paths), Walk(tree, []), {});
    WalkShape(tree, []);
    DistinctUploads(Walk(tree, []), covered, {});
    assert {} + covered == covered && covered + {} == covered;
  }

  /** Both folder caches lead to the same Drive folder: what one of them resolved
      for a directory is what the other resolves for it, then or later. */
  lemma {:induction false} CachesAgree(
    a: map<Path, FolderId>, before: FolderTable, b: map<Path, FolderId>, after: FolderTable, path: Path)
    requires CacheOk(a, before) && CacheOk(b, after) && Grows(before, after)
    requires path in a && path in b
    ensures a[path] == b[path]
  {
    ResolveIsStable(before, after, path);
  }
}
