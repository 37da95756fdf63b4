/** git+ and hf:// artifact URIs (external_refs.py): what the builders print, the
    parsers invert, and exactly for which inputs. */
module ExternalRefs {
  import opened Common

  // ----- str methods -----

  /** s.partition(c): text before and after the first c, or None without one. */
  function Partition(s: string, c: char): Option<(string, string)> {
    if s == [] then None
    else if s[0] == c then Some(([], s[1..]))
    else match Partition(s[1..], c)
         case None => None
         case Some((a, b)) => Some(([s[0]] + a, b))
  }

  /** s.rpartition(c): text before and after the last c, or None without one. */
  function RPartition(s: string, c: char): Option<(string, string)> {
    if s == [] then None
    else if s[|s| - 1] == c then Some((s[..|s| - 1], []))
    else match RPartition(s[..|s| - 1], c)
         case None => None
         case Some((a, b)) => Some((a, b + [s[|s| - 1]]))
  }

  lemma {:induction false} PartitionSplits(s: string, c: char)
    ensures match Partition(s, c)
      case None => c !in s
      case Some((a, b)) => s == a + [c] + b && c !in a
  {
    if s != [] && s[0] != c {
      PartitionSplits(s[1..], c);
      assert s == [s[0]] + s[1..];
    }
  }

  lemma {:induction false} PartitionAt(a: string, c: char, b: string)
    requires c !in a
    ensures Partition(a + [c] + b, c) == Some((a, b))
  {
    var s := a + [c] + b;
    if a == [] {
      assert s == [c] + b;
    } else {
      PartitionAt(a[1..], c, b);
      assert s[1..] == a[1..] + [c] + b;
      assert a == [a[0]] + a[1..];
    }
  }

  lemma {:induction false} RPartitionSplits(s: string, c: char)
    ensures match RPartition(s, c)
      case None => c !in s
      case Some((a, b)) => s == a + [c] + b && c !in b
  {
    if s != [] {
      var init, last := s[..|s| - 1], s[|s| - 1];
      assert s == init + [last];
      if last != c { RPartitionSplits(init, c); }
    }
  }

  lemma {:induction false} RPartitionAt(a: string, c: char, b: string)
    requires c !in b
    ensures RPartition(a + [c] + b, c) == Some((a, b))
  {
    var s := a + [c] + b;
    if b == [] {
      assert s == a + [c];
    } else {
      var init := b[..|b| - 1];
      RPartitionAt(a, c, init);
      assert s[..|s| - 1] == a + [c] + init;
      assert b == init + [b[|b| - 1]];
      assert s[|s| - 1] == b[|b| - 1];
    }
  }

  // ----- hf:// -----

  const HF: string := "hf://"

  predicate HfType(t: string) { t == "model" || t == "dataset" }

  function BuildHf(repoType: string, repoId: string, revision: string): Result<string, ()> {
    if !HfType(repoType) then Err(()) else Ok(HF + (repoType + "/" + (repoId + "@" + revision)))
  }

  datatype HfRef = HfRef(repoType: string, repoId: string, revision: string)

  function ParseHf(uri: string): Result<HfRef, ()> {
    if !(HF <= uri) then Err(()) else
      var body := uri[|HF|..];
      match Partition(body, '/')
      case None => Err(())   // without a slash the type is the whole body and the repo id is empty
      case Some((repoType, rest)) =>
        if !HfType(repoType) then Err(()) else ParseHfRest(repoType, rest)
  }

  function ParseHfRest(repoType: string, rest: string): Result<HfRef, ()> {
    var (repoId, revision) := match RPartition(rest, '@') case None => (rest, "main") case Some((a, b)) => (a, b);
    if repoId == "" then Err(()) else Ok(HfRef(repoType, repoId, revision))
  }

  lemma {:induction false} ParseHfOfBody(repoType: string, rest: string)
    requires HfType(repoType)
    ensures ParseHf(HF + (repoType + "/" + rest)) == ParseHfRest(repoType, rest)
  {
    var uri := HF + (repoType + "/" + rest);
    assert HF <= uri && uri[|HF|..] == repoType + "/" + rest;
    PartitionAt(repoType, '/', rest);
  }

  /** parse_hf_uri inverts build_hf_uri exactly for a non-empty repo id (slashes and
      at-signs allowed) and a revision without '@' (empty allowed). */
  lemma {:induction false} HfRoundTrip(repoType: string, repoId: string, revision: string)
    requires HfType(repoType)
    ensures ParseHf(BuildHf(repoType, repoId, revision).value) == Ok(HfRef(repoType, repoId, revision))
            <==> repoId != "" && '@' !in revision
  {
    var rest := repoId + "@" + revision;
    ParseHfOfBody(repoType, rest);
    if '@' !in revision {
      RPartitionAt(repoId, '@', revision);
    } else {
      RPartitionSplits(rest, '@');
      assert rest[|repoId|] == '@';
    }
  }

  /** The dashboard's fallback pattern ^hf://(model|dataset)/([^@]+)@?(.*)$ with an
      empty last group read as "main". */
  function DashboardHf(uri: string): Option<HfRef> {
    if !(HF <= uri) then None else
      match Partition(uri[|HF|..], '/')
      case None => None
      case Some((repoType, rest)) =>
        if !HfType(repoType) then None else
          var (repoId, revision) := match Partition(rest, '@') case None => (rest, "") case Some((a, b)) => (a, b);
          if repoId == "" || HasLineBreak(revision) then None
          else Some(HfRef(repoType, repoId, if revision == "" then "main" else revision))
  }

  /** The characters `.` does not match. */
  predicate HasLineBreak(s: string) {
    '\n' in s || '\r' in s || '\U{2028}' in s || '\U{2029}' in s
  }

  /** On every hf URI the server builds, the dashboard reads the same reference as
      parse_hf_uri exactly when there is a single '@' with text on both sides and no
      line break in the revision. */
  lemma {:induction false} DashboardAgrees(repoType: string, repoId: string, revision: string)
    requires HfType(repoType)
    ensures var uri := BuildHf(repoType, repoId, revision).value;
      (DashboardHf(uri).Some? && ParseHf(uri) == Ok(DashboardHf(uri).value)) <==>
        && repoId != "" && '@' !in repoId && revision != "" && '@' !in revision
        && '\n' !in revision && '\r' !in revision && '\U{2028}' !in revision && '\U{2029}' !in revision
  {
    var rest := repoId + "@" + revision;
    var uri := HF + (repoType + "/" + rest);
    ParseHfOfBody(repoType, rest);
    assert uri[|HF|..] == repoType + "/" + rest;
    PartitionAt(repoType, '/', rest);
    PartitionSplits(rest, '@');
    RPartitionSplits(rest, '@');
    if '@' !in repoId { PartitionAt(repoId, '@', revision); }
    if '@' !in revision { RPartitionAt(repoId, '@', revision); }
    if '@' in repoId || '@' in revision {
      TwoMarksDiffer(repoId, revision);
    }
  }

  /** With a second '@' the first one and the last one are not the same. */
  lemma {:induction false} TwoMarksDiffer(a: string, b: string)
    requires '@' in a || '@' in b
    ensures var s := a + "@" + b;
      Partition(s, '@').Some? && RPartition(s, '@').Some? && Partition(s, '@').value.0 != RPartition(s, '@').value.0
  {
    var s := a + "@" + b;
    PartitionSplits(s, '@');
    RPartitionSplits(s, '@');
    assert s[|a|] == '@';
    var k: nat;
    if '@' in a {
      k :| k < |a| && a[k] == '@';
    } else {
      var n: nat :| n < |b| && b[n] == '@';
      k := |a| + 1 + n;
    }
    assert s[k] == '@' && k != |a|;
    var i, j := |Partition(s, '@').value.0|, |RPartition(s, '@').value.0|;
    assert i <= k && i <= |a| && k <= j && |a| <= j;
  }

  // ----- git+ -----

  const GIT: string := "git+"
  const GITHUB: string := "https://github.com/"

  function BuildGit(owner: string, repo: string, commit: string): string {
    GIT + (GITHUB + (owner + "/" + repo)) + "@" + commit
  }

  datatype GitRef = GitRef(host: string, owner: string, repo: string, commit: string)

  predicate Removed(c: char) { c == '\t' || c == '\r' || c == '\n' }

  /** urlsplit drops tabs and line breaks anywhere in the URL. */
  function Sanitized(s: string): string {
    if s == [] then [] else (if Removed(s[0]) then [] else [s[0]]) + Sanitized(s[1..])
  }

  /** Text up to the first `c`. */
  function Before(s: string, c: char): string {
    match Partition(s, c) case None => s case Some((a, _)) => a
  }

  /** urlparse's path of a github URL's remainder: fragment, query and the
      parameters of the last segment are cut off, in that order. */
  function PathOf(s: string): string {
    CutParams(Before(Before(s, '#'), '?'))
  }

  /** _splitparams: a ';' after the last '/' starts the parameters. */
  function CutParams(s: string): string {
    match RPartition(s, '/')
    case None => Before(s, ';')
    case Some((head, last)) => head + "/" + Before(last, ';')
  }

  /** [p for p in s.split("/") if p] */
  function Segments(s: string): seq<string>
    decreases |s|
  {
    match Partition(s, '/')
    case None => if s == [] then [] else [s]
    case Some((a, b)) => PartitionSplits(s, '/'); (if a == [] then [] else [a]) + Segments(b)
  }

  predicate EndsWith(s: string, suffix: string) {
    |s| >= |suffix| && s[|s| - |suffix|..] == suffix
  }

  function RemoveSuffix(s: string, suffix: string): string {
    if EndsWith(s, suffix) then s[..|s| - |suffix|] else s
  }

  /** parse_git_uri for URLs on https://github.com/; other prefixes are not modelled. */
  function ParseGithub(uri: string): Result<GitRef, ()> {
    if !(GIT <= uri) then Err(()) else
      match RPartition(uri[|GIT|..], '@')
      case None => Err(())
      case Some((url, commit)) =>
        if url == "" || commit == "" || !(GITHUB <= url) then Err(())
        else ParseGithubPath(url[|GITHUB|..], commit)
  }

  function ParseGithubPath(path: string, commit: string): Result<GitRef, ()> {
    var parts := Segments(PathOf(Sanitized(path)));
    if |parts| < 2 then Err(()) else Ok(GitRef("github.com", parts[0], RemoveSuffix(parts[1], ".git"), commit))
  }

  /** A path segment as RFC 3986 section 3.3 has it, as far as urlparse looks. */
  predicate Segment(s: string) {
    s != "" && '/' !in s && '?' !in s && '#' !in s && '\t' !in s && '\r' !in s && '\n' !in s
  }

  lemma {:induction false} SanitizedClean(s: string)
    requires forall c | c in s :: !Removed(c)
    ensures Sanitized(s) == s
  {
    if s != [] {
      SanitizedClean(s[1..]);
      assert s == [s[0]] + s[1..];
    }
  }

  lemma {:induction false} SanitizedDrops(s: string)
    ensures forall c | c in Sanitized(s) :: c in s && !Removed(c)
  {
    if s != [] { SanitizedDrops(s[1..]); }
  }

  lemma {:induction false} BeforeIsPrefix(s: string, c: char)
    ensures Before(s, c) <= s && c !in Before(s, c)
    ensures c !in s ==> Before(s, c) == s
  {
    PartitionSplits(s, c);
  }

  /** Every segment of a path is non-empty, has no slash, and uses only its characters. */
  lemma {:induction false} SegmentsAreClean(s: string)
    ensures forall p | p in Segments(s) :: p != "" && '/' !in p && forall c | c in p :: c in s
    decreases |s|
  {
    PartitionSplits(s, '/');
    match Partition(s, '/')
    case None =>
    case Some((a, b)) => SegmentsAreClean(b);
  }

  lemma {:induction false} TwoSegments(a: string, b: string)
    requires a != "" && b != "" && '/' !in a && '/' !in b
    ensures Segments(a + "/" + b) == [a, b]
  {
    PartitionAt(a, '/', b);
    PartitionSplits(b, '/');
    assert Segments(b) == [b];
  }

  lemma {:induction false} CutParamsUses(s: string)
    ensures CutParams(s) <= s
  {
    RPartitionSplits(s, '/');
    match RPartition(s, '/')
    case None => BeforeIsPrefix(s, ';');
    case Some((head, last)) => BeforeIsPrefix(last, ';');
  }

  /** What comes out of the path parser is always made of clean characters. */
  lemma {:induction false} PathSegmentsAreClean(path: string, p: string)
    requires p in Segments(PathOf(Sanitized(path)))
    ensures Segment(p)
  {
    var s := Sanitized(path);
    SanitizedDrops(path);
    BeforeIsPrefix(s, '#');
    BeforeIsPrefix(Before(s, '#'), '?');
    CutParamsUses(Before(Before(s, '#'), '?'));
    SegmentsAreClean(PathOf(s));
    assert Removed('\t') && Removed('\r') && Removed('\n');
  }

  /** A clean owner and repo survive the path parser but for the repo's parameters. */
  lemma {:induction false} CleanPath(owner: string, repo: string)
    requires Segment(owner) && Segment(repo)
    ensures PathOf(Sanitized(owner + "/" + repo)) == owner + "/" + Before(repo, ';')
  {
    var s := owner + "/" + repo;
    SanitizedClean(s);
    BeforeIsPrefix(s, '#');
    BeforeIsPrefix(s, '?');
    RPartitionAt(owner, '/', repo);
  }

  /** parse_git_uri inverts build_git_uri exactly for clean path segments, a repo
      without ';' that does not end in ".git", and a non-empty commit without '@'. */
  lemma {:induction false} GitRoundTrip(owner: string, repo: string, commit: string)
    ensures ParseGithub(BuildGit(owner, repo, commit)) == Ok(GitRef("github.com", owner, repo, commit)) <==>
              && Segment(owner) && Segment(repo) && ';' !in repo && !EndsWith(repo, ".git")
              && commit != "" && '@' !in commit
  {
    var url := GITHUB + (owner + "/" + repo);
    var uri := BuildGit(owner, repo, commit);
    assert uri == GIT + (url + "@" + commit);
    assert uri[|GIT|..] == url + "@" + commit;
    if '@' !in commit {
      RPartitionAt(url, '@', commit);
      assert url[|GITHUB|..] == owner + "/" + repo;
      if commit != "" {
        GithubPathRoundTrip(owner, repo, commit);
      }
    } else {
      RPartitionSplits(url + "@" + commit, '@');
    }
  }

  lemma {:induction false} GithubPathRoundTrip(owner: string, repo: string, commit: string)
    ensures ParseGithubPath(owner + "/" + repo, commit) == Ok(GitRef("github.com", owner, repo, commit)) <==>
              Segment(owner) && Segment(repo) && ';' !in repo && !EndsWith(repo, ".git")
  {
    var parts := Segments(PathOf(Sanitized(owner + "/" + repo)));
    if Segment(owner) && Segment(repo) {
      CleanPath(owner, repo);
      CleanSegmentsRoundTrip(owner, repo);
    } else if |parts| >= 2 && parts[0] == owner && RemoveSuffix(parts[1], ".git") == repo {
      assert parts[0] in parts && parts[1] in parts;
      PathSegmentsAreClean(owner + "/" + repo, parts[0]);
      PathSegmentsAreClean(owner + "/" + repo, parts[1]);
      assert repo == "";
      EmptyRepo(owner);
    }
  }

  /** A clean owner with an empty repo gives a single segment. */
  lemma {:induction false} EmptyRepo(owner: string)
    requires Segment(owner)
    ensures |Segments(PathOf(Sanitized(owner + "/" + "")))| < 2
  {
    var s := owner + "/" + "";
    SanitizedClean(s);
    BeforeIsPrefix(s, '#');
    BeforeIsPrefix(s, '?');
    RPartitionAt(owner, '/', "");
    assert PathOf(s) == owner + "/" + "";
    PartitionAt(owner, '/', "");
    assert Segments("") == [];
  }

  lemma {:induction false} CleanSegmentsRoundTrip(owner: string, repo: string)
    requires Segment(owner) && Segment(repo)
    ensures var parts := Segments(owner + "/" + Before(repo, ';'));
      (|parts| >= 2 && parts[0] == owner && RemoveSuffix(parts[1], ".git") == repo)
      <==> ';' !in repo && !EndsWith(repo, ".git")
  {
    var cut := Before(repo, ';');
    BeforeIsPrefix(repo, ';');
    if cut != "" {
      TwoSegments(owner, cut);
      assert |RemoveSuffix(cut, ".git")| <= |cut|;
      if ';' in repo {
        assert |cut| < |repo| by { assert cut != repo; }
      } else if EndsWith(repo, ".git") {
        assert |RemoveSuffix(repo, ".git")| < |repo|;
      }
    } else {
      PartitionAt(owner, '/', "");
      assert Segments("") == [];
      assert owner + "/" + cut == owner + "/" + "";
    }
  }

  // ----- The dashboard's git pattern -----

  datatype GitLink = GitLink(ownerRepo: string, commit: string)

  /** ^git\+https://github\.com/([^/]+/[^/@]+)@(.+)$ : both groups are forced, the
      first up to the first slash and then to the next slash or at-sign. */
  function DashboardGit(uri: string): Option<GitLink> {
    if !(GIT + GITHUB <= uri) then None else
      match Partition(uri[|GIT + GITHUB|..], '/')
      case None => None
      case Some((owner, rest)) =>
        match Partition(rest, '@')
        case None => None
        case Some((repo, commit)) =>
          if owner == "" || repo == "" || '/' in repo || commit == "" || HasLineBreak(commit) then None
          else Some(GitLink(owner + "/" + repo, commit))
  }

  /** What the dashboard should link to, going by the parser. */
  function LinkOf(ref: GitRef): GitLink { GitLink(ref.owner + "/" + ref.repo, ref.commit) }

  lemma {:induction false} DashboardReadsGit(owner: string, repo: string, commit: string)
    requires Segment(owner) && Segment(repo) && '@' !in repo
    ensures DashboardGit(BuildGit(owner, repo, commit))
            == if commit == "" || HasLineBreak(commit) then None else Some(GitLink(owner + "/" + repo, commit))
  {
    var uri := BuildGit(owner, repo, commit);
    var rest := repo + "@" + commit;
    assert uri == (GIT + GITHUB) + (owner + "/" + rest);
    assert uri[|GIT + GITHUB|..] == owner + "/" + rest;
    PartitionAt(owner, '/', rest);
    PartitionAt(repo, '@', commit);
  }

  /** With an '@' in the repo the pattern cuts at the first one, so what it takes for
      the commit still holds the last one. */
  lemma {:induction false} DashboardCutsEarly(owner: string, repo: string, commit: string)
    requires Segment(owner) && '@' in repo && DashboardGit(BuildGit(owner, repo, commit)).Some?
    ensures '@' in DashboardGit(BuildGit(owner, repo, commit)).value.commit
  {
    var uri := BuildGit(owner, repo, commit);
    var rest := repo + "@" + commit;
    assert uri == (GIT + GITHUB) + (owner + "/" + rest);
    assert uri[|GIT + GITHUB|..] == owner + "/" + rest;
    PartitionAt(owner, '/', rest);
    PartitionSplits(repo, '@');
    var (first, more) := Partition(repo, '@').value;
    assert rest == first + "@" + (more + "@" + commit);
    PartitionAt(first, '@', more + "@" + commit);
  }

  /** On the URI of clean segments the dashboard and parse_git_uri name the same
      commit exactly when the repo and commit have nothing that one of them cuts and
      the other keeps: an '@', a ';', a ".git" suffix, a line break. */
  lemma {:induction false} DashboardAgreesOnGit(owner: string, repo: string, commit: string)
    requires Segment(owner) && Segment(repo)
    ensures var uri := BuildGit(owner, repo, commit);
      (DashboardGit(uri).Some? && ParseGithub(uri).Ok? && LinkOf(ParseGithub(uri).value) == DashboardGit(uri).value) <==>
        && '@' !in repo && ';' !in repo && !EndsWith(repo, ".git")
        && commit != "" && '@' !in commit
        && '\n' !in commit && '\r' !in commit && '\U{2028}' !in commit && '\U{2029}' !in commit
  {
    var uri := BuildGit(owner, repo, commit);
    GitRoundTrip(owner, repo, commit);
    if '@' !in repo { DashboardReadsGit(owner, repo, commit); }
    if DashboardGit(uri).Some? && ParseGithub(uri).Ok? && LinkOf(ParseGithub(uri).value) == DashboardGit(uri).value {
      var ref := ParseGithub(uri).value;
      ParsedPartsAreClean(uri);
      if '@' in repo {
        DashboardCutsEarly(owner, repo, commit);
        assert false;
      }
      PartitionAt(ref.owner, '/', ref.repo);
      PartitionAt(owner, '/', repo);
      assert ParseGithub(uri) == Ok(GitRef("github.com", owner, repo, commit));
    }
  }

  /** A parsed owner never holds a slash, nor a parsed commit an at-sign, and the
      host is the one that is modelled. */
  lemma {:induction false} ParsedPartsAreClean(uri: string)
    requires ParseGithub(uri).Ok?
    ensures '/' !in ParseGithub(uri).value.owner && ParseGithub(uri).value.host == "github.com"
    ensures '@' !in ParseGithub(uri).value.commit
  {
    RPartitionSplits(uri[|GIT|..], '@');
    var (url, commit) := RPartition(uri[|GIT|..], '@').value;
    var path := url[|GITHUB|..];
    var parts := Segments(PathOf(Sanitized(path)));
    assert parts[0] in parts;
    PathSegmentsAreClean(path, parts[0]);
  }

  // ----- What else the parsers read -----

  /** parse_hf_uri, exactly: a built URI of a revision without '@', or one without any
      '@' at all, whose revision is then "main". */
  lemma {:induction false} HfParsesExactly(uri: string, t: string, id: string, revision: string)
    ensures ParseHf(uri) == Ok(HfRef(t, id, revision)) <==>
              && HfType(t) && id != "" && '@' !in revision
              && (uri == HF + (t + "/" + (id + "@" + revision)) || (revision == "main" && '@' !in id && uri == HF + (t + "/" + id)))
  {
    if HF <= uri {
      var body := uri[|HF|..];
      assert uri == HF + body;
      PartitionSplits(body, '/');
      match Partition(body, '/')
      case None =>
      case Some((kind, rest)) =>
        assert body == kind + "/" + rest;
        RPartitionSplits(rest, '@');
    }
    if HfType(t) && id != "" && '@' !in revision {
      ParseHfOfBody(t, id + "@" + revision);
      RPartitionAt(id, '@', revision);
      if '@' !in id {
        ParseHfOfBody(t, id);
        RPartitionSplits(id, '@');
      }
    }
  }

  /** A ".git" suffix of the repo is dropped, once. */
  lemma {:induction false} GitSuffixIsDropped(owner: string, repo: string, commit: string)
    requires Segment(owner) && Segment(repo) && ';' !in repo && commit != "" && '@' !in commit
    ensures ParseGithub(BuildGit(owner, repo + ".git", commit)) == Ok(GitRef("github.com", owner, repo, commit))
  {
    var full := repo + ".git";
    assert forall c | c in ".git" :: c == '.' || c == 'g' || c == 'i' || c == 't';
    GitReads(owner, full, commit);
    assert full[|full| - 4..] == ".git" && full[..|full| - 4] == repo;
  }

  /** What parse_git_uri makes of clean segments in general. */
  lemma {:induction false} GitReads(owner: string, repo: string, commit: string)
    requires Segment(owner) && Segment(repo) && ';' !in repo && commit != "" && '@' !in commit
    ensures ParseGithub(BuildGit(owner, repo, commit)) == Ok(GitRef("github.com", owner, RemoveSuffix(repo, ".git"), commit))
  {
    var url := GITHUB + (owner + "/" + repo);
    var uri := BuildGit(owner, repo, commit);
    assert uri == GIT + (url + "@" + commit) && uri[|GIT|..] == url + "@" + commit;
    RPartitionAt(url, '@', commit);
    assert url[|GITHUB|..] == owner + "/" + repo;
    CleanPath(owner, repo);
    BeforeIsPrefix(repo, ';');
    TwoSegments(owner, repo);
  }

  /** Without a query, a fragment or parameters of the last segment the path is the text. */
  lemma {:induction false} PlainPath(head: string, last: string)
    requires '#' !in head && '?' !in head && '#' !in last && '?' !in last && '/' !in last && ';' !in last
    ensures PathOf(head + "/" + last) == head + "/" + last
  {
    var s := head + "/" + last;
    BeforeIsPrefix(s, '#');
    BeforeIsPrefix(s, '?');
    RPartitionAt(head, '/', last);
    BeforeIsPrefix(last, ';');
  }

  lemma {:induction false} SegmentsFromFront(a: string, rest: string)
    requires a != "" && '/' !in a
    ensures Segments(a + "/" + rest) == [a] + Segments(rest)
  {
    PartitionAt(a, '/', rest);
  }

  lemma {:induction false} Regroup(a: string, b: string, c: string, d: string)
    ensures (a + "/" + (b + "/" + c)) + "/" + d == a + "/" + (b + "/" + (c + "/" + d))
  {
    var left, right := (a + "/" + (b + "/" + c)) + "/" + d, a + "/" + (b + "/" + (c + "/" + d));
    assert b + "/" + (c + "/" + d) == (b + "/" + c) + ("/" + d);
    assert left[..|a + "/"|] == a + "/" && right[..|a + "/"|] == a + "/";
    assert left[|a + "/"|..] == (b + "/" + c) + ("/" + d);
    assert right[|a + "/"|..] == (b + "/" + c) + ("/" + d);
    assert left == left[..|a + "/"|] + left[|a + "/"|..] && right == right[..|a + "/"|] + right[|a + "/"|..];
  }

  /** No character that urlparse drops or stops at. */
  predicate Plain(s: string) { forall c | c in s :: !Removed(c) && c != '?' && c != '#' }

  lemma {:induction false} PlainConcat(a: string, b: string)
    requires Plain(a) && Plain(b)
    ensures Plain(a + b)
  {
  }

  lemma {:induction false} PlainSegments(head: string, last: string)
    requires Plain(head) && Plain(last) && '/' !in last && ';' !in last
    ensures PathOf(Sanitized(head + "/" + last)) == head + "/" + last
  {
    PlainConcat(head, "/");
    PlainConcat(head + "/", last);
    SanitizedClean(head + "/" + last);
    PlainPath(head, last);
  }

  /** Segments after the repo are ignored. */
  lemma {:induction false} GitIgnoresTheRest(owner: string, repo: string, more: string, last: string, commit: string)
    requires Segment(owner) && Segment(repo) && Plain(more) && Plain(last) && '/' !in last && ';' !in last
    ensures ParseGithubPath((owner + "/" + (repo + "/" + more)) + "/" + last, commit)
         == Ok(GitRef("github.com", owner, RemoveSuffix(repo, ".git"), commit))
  {
    var inner, tail := repo + "/" + more, more + "/" + last;
    PlainConcat(repo, "/");
    PlainConcat(repo + "/", more);
    PlainConcat(owner, "/");
    PlainConcat(owner + "/", inner);
    PlainSegments(owner + "/" + inner, last);
    Regroup(owner, repo, more, last);
    SegmentsFromFront(owner, repo + "/" + tail);
    SegmentsFromFront(repo, tail);
  }

  /** The texts the builders print; only models and datasets have an hf:// URI. */
  lemma {:induction false} BuiltTexts(owner: string, repo: string, commit: string, repoType: string, repoId: string, revision: string)
    ensures BuildGit(owner, repo, commit) == "git+https://github.com/" + owner + "/" + repo + "@" + commit
    ensures BuildHf(repoType, repoId, revision) ==
              if repoType == "model" || repoType == "dataset" then Ok("hf://" + repoType + "/" + repoId + "@" + revision)
              else Err(())
  {
    assert GIT + (GITHUB + (owner + "/" + repo)) == "git+https://github.com/" + owner + "/" + repo;
    assert HF + (repoType + "/" + (repoId + "@" + revision)) == "hf://" + repoType + "/" + repoId + "@" + revision;
  }
}
