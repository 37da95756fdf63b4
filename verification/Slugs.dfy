/** Slug allocation by the migration script, replayed by the archiver. */
module Slugs {
  // scripts/migrate_chris_experiments.py and scripts/archive_chris_experiments_to_drive.py.

  import opened Common
  import opened Decimals
  import opened IndexParser

  /** The n-th name tried for a base: base, base-2, base-3, ... */
  function Candidate(base: string, n: nat): string {
    if n <= 1 then base else base + "-" + Decimal(n)
  }

  lemma {:induction false} CandidatesDiffer(base: string, m: nat, n: nat)
    requires 1 <= m < n
    ensures Candidate(base, m) != Candidate(base, n)
  {
    if m == 1 {
      assert |Candidate(base, n)| > |base|;
    } else {
      ValueOfDecimal(m);
      ValueOfDecimal(n);
      assert Candidate(base, m)[|base| + 1..] == Decimal(m);
      assert Candidate(base, n)[|base| + 1..] == Decimal(n);
    }
  }

  function Tried(base: string, n: nat): set<string> {
    set k | 1 <= k < n :: Candidate(base, k)
  }

  lemma {:induction false} TriedCount(base: string, n: nat)
    requires n >= 1
    ensures |Tried(base, n)| == n - 1
  {
    if n == 1 {
      assert Tried(base, 1) == {};
    } else {
      TriedCount(base, n - 1);
      TriedStep(base, n);
    }
  }

  lemma {:induction false} TriedStep(base: string, n: nat)
    requires n >= 2
    ensures Candidate(base, n - 1) !in Tried(base, n - 1)
    ensures Tried(base, n) == Tried(base, n - 1) + {Candidate(base, n - 1)}
  {
    forall k | 1 <= k < n - 1 ensures Candidate(base, k) != Candidate(base, n - 1) {
      CandidatesDiffer(base, k, n - 1);
    }
  }

  /** `slug` is the first candidate of `base` outside `seen`. */
  ghost predicate IsFirstFree(base: string, seen: set<string>, slug: string) {
    slug !in seen && exists n: nat :: 1 <= n && slug == Candidate(base, n) && Tried(base, n) <= seen
  }

  lemma {:induction false} FirstFreeIsUnique(base: string, seen: set<string>, a: string, b: string)
    requires IsFirstFree(base, seen, a) && IsFirstFree(base, seen, b)
    ensures a == b
  {
    var m: nat :| 1 <= m && a == Candidate(base, m) && Tried(base, m) <= seen;
    var n: nat :| 1 <= n && b == Candidate(base, n) && Tried(base, n) <= seen;
    assert m < n ==> Candidate(base, m) in Tried(base, n);
    assert n < m ==> Candidate(base, n) in Tried(base, m);
  }

  ghost predicate IsNextFree(base: string, seen: set<string>, slug: string, n: nat) {
    n >= 2 && slug == base + "-" + Decimal(n) && forall k | 2 <= k < n :: base + "-" + Decimal(k) in seen
  }

  /** The base itself when it is free, else base-n for the least free n from 2 on. */
  lemma {:induction false} FirstFreeInFull(base: string, seen: set<string>, slug: string)
    ensures IsFirstFree(base, seen, slug) <==>
      && slug !in seen
      && (slug == base || (base in seen && exists n: nat :: IsNextFree(base, seen, slug, n)))
  {
    if IsFirstFree(base, seen, slug) {
      var n: nat :| 1 <= n && slug == Candidate(base, n) && Tried(base, n) <= seen;
      if n > 1 {
        assert Candidate(base, 1) in Tried(base, n);
        forall k | 2 <= k < n ensures base + "-" + Decimal(k) in seen {
          assert Candidate(base, k) in Tried(base, n);
        }
        assert IsNextFree(base, seen, slug, n);
      }
    }
    assert Candidate(base, 1) == base && Tried(base, 1) <= seen;
    if n: nat :| IsNextFree(base, seen, slug, n) && base in seen {
      assert slug == Candidate(base, n) && Tried(base, n) <= seen;
    }
  }

  /** The set of slugs handed out so far, updated in place by build_slug. */
  class SeenSlugs {
    var seen: set<string>

    constructor ()
      ensures seen == {}
    {
      seen := {};
    }

    /** The search always ends: only |seen| candidates can be taken. */
    method BuildSlug(base: string) returns (slug: string)
      modifies this
      ensures IsFirstFree(base, old(seen), slug)
      ensures slug !in old(seen)
      ensures slug == base || (base in old(seen) && exists n: nat :: IsNextFree(base, old(seen), slug, n))
      ensures seen == old(seen) + {slug}
    {
      slug := base;
      var n := 2;
      assert Tried(base, 1) == {};
      while slug in seen
        invariant n >= 2 && slug == Candidate(base, n - 1) && Tried(base, n - 1) <= seen
        invariant seen == old(seen)
        decreases |seen| + 2 - n
      {
        assert Tried(base, n) == Tried(base, n - 1) + {Candidate(base, n - 1)};
        TriedCount(base, n);
        SubsetIsNoLarger(Tried(base, n), seen);
        slug := base + "-" + Decimal(n);
        n := n + 1;
      }
      FirstFreeInFull(base, seen, slug);
      seen := seen + {slug};
    }
  }

  /** Slugs handed out one after the other for these bases, from an empty start. */
  ghost predicate Allocated(bases: seq<string>, slugs: seq<string>) {
    && |slugs| == |bases|
    && forall i | 0 <= i < |bases| :: IsFirstFree(bases[i], SetOf(slugs[..i]), slugs[i])
  }

  /** All slugs of an index are pairwise distinct. */
  lemma {:induction false} AllocatedAreDistinct(bases: seq<string>, slugs: seq<string>)
    requires Allocated(bases, slugs)
    ensures forall i, j | 0 <= i < j < |slugs| :: slugs[i] != slugs[j]
  {
    forall i, j | 0 <= i < j < |slugs| ensures slugs[i] != slugs[j] {
      assert IsFirstFree(bases[j], SetOf(slugs[..j]), slugs[j]);
      assert slugs[..j][i] == slugs[i];
    }
  }

  /** Replaying the allocation over the same bases gives the same slugs. */
  lemma {:induction false} AllocationIsReplayable(bases: seq<string>, a: seq<string>, b: seq<string>)
    requires Allocated(bases, a) && Allocated(bases, b)
    ensures a == b
    decreases |bases|
  {
    if bases == [] {
    } else {
      var n := |bases| - 1;
      AllocatedPrefix(bases, a);
      AllocatedPrefix(bases, b);
      AllocationIsReplayable(bases[..n], a[..n], b[..n]);
      FirstFreeIsUnique(bases[n], SetOf(a[..n]), a[n], b[n]);
      assert a == a[..n] + [a[n]] && b == b[..n] + [b[n]];
    }
  }

  lemma {:induction false} AllocatedPrefix(bases: seq<string>, slugs: seq<string>)
    requires Allocated(bases, slugs) && bases != []
    ensures Allocated(bases[..|bases| - 1], slugs[..|bases| - 1])
  {
    var n := |bases| - 1;
    forall i | 0 <= i < n ensures IsFirstFree(bases[..n][i], SetOf(slugs[..n][..i]), slugs[..n][i]) {
      assert slugs[..n][..i] == slugs[..i];
      assert IsFirstFree(bases[i], SetOf(slugs[..i]), slugs[i]);
    }
  }

  /** `baseOf` is the slug base of an experiment: programme slug, id and title. */
  function Bases(experiments: seq<ParsedExperiment>, baseOf: ParsedExperiment -> string): seq<string> {
    seq(|experiments|, i requires 0 <= i < |experiments| => baseOf(experiments[i]))
  }

  function Accepted(accepted: seq<bool>): nat {
    if accepted == [] then 0
    else Accepted(accepted[..|accepted| - 1]) + if accepted[|accepted| - 1] then 1 else 0
  }

  lemma {:induction false} AcceptedCounts(accepted: seq<bool>)
    ensures Accepted(accepted) == |set i | 0 <= i < |accepted| && accepted[i]|
  {
    if accepted != [] {
      var n := |accepted| - 1;
      AcceptedCounts(accepted[..n]);
      var before := set i | 0 <= i < n && accepted[i];
      assert before == set i | 0 <= i < n && accepted[..n][i];
      assert (set i | 0 <= i < |accepted| && accepted[i]) == before + if accepted[n] then {n} else {};
    }
  }

  /** run_migration's loop: a slug is allocated for every experiment, whether or not
      the server then accepts it; `created` counts the accepted ones. */
  method RunMigration(experiments: seq<ParsedExperiment>, baseOf: ParsedExperiment -> string, accepted: seq<bool>)
    returns (slugs: seq<string>, created: nat)
    requires |accepted| == |experiments|
    ensures Allocated(Bases(experiments, baseOf), slugs)
    ensures created == |set i | 0 <= i < |accepted| && accepted[i]|
  {
    var seen := new SeenSlugs();
    slugs, created := [], 0;
    ghost var bases := Bases(experiments, baseOf);
    var i := 0;
    while i < |experiments|
      invariant 0 <= i <= |experiments| && |slugs| == i
      invariant seen.seen == SetOf(slugs)
      invariant forall k | 0 <= k < i :: IsFirstFree(bases[k], SetOf(slugs[..k]), slugs[k])
      invariant created == Accepted(accepted[..i])
    {
      assert accepted[..i + 1][..i] == accepted[..i];
      var slug := seen.BuildSlug(baseOf(experiments[i]));
      ghost var before := slugs;
      slugs := slugs + [slug];
      assert slugs[..i] == before;
      assert forall k | 0 <= k < i :: slugs[..k] == before[..k];
      i := i + 1;
      if !accepted[i - 1] { continue; }
      created := created + 1;
    }
    assert accepted[..|accepted|] == accepted;
    AcceptedCounts(accepted);
  }

  function StripSlashes(s: string): string {
    if s != [] && s[|s| - 1] == '/' then StripSlashes(s[..|s| - 1]) else s
  }

  /** rstrip("/"): trailing slashes are dropped, all of them and nothing else. */
  lemma {:induction false} StripsSlashes(s: string)
    ensures var r := StripSlashes(s);
      && r <= s && (r != "" ==> r[|r| - 1] != '/') && forall i | |r| <= i < |s| :: s[i] == '/'
  {
    if s != [] && s[|s| - 1] == '/' { StripsSlashes(s[..|s| - 1]); }
  }

  predicate HasPath(e: ParsedExperiment) { e.path.Some? && e.path.value != "" }

  predicate StandsAt(e: ParsedExperiment, p: string) { HasPath(e) && StripSlashes(e.path.value) == p }

  /** The slugs of the experiments at path `p`, in document order. */
  function SlugsAt(experiments: seq<ParsedExperiment>, slugs: seq<string>, p: string): seq<string>
    requires |slugs| == |experiments|
  {
    if experiments == [] then [] else
      var n := |experiments| - 1;
      var e := experiments[n];
      SlugsAt(experiments[..n], slugs[..n], p)
      + if StandsAt(e, p) then [slugs[n]] else []
  }

  /** `here` are the slugs at the positions `at`, from the first to the last. */
  ghost predicate ListedAt(here: seq<string>, slugs: seq<string>, at: seq<nat>) {
    && |here| == |at|
    && (forall k | 0 <= k < |at| :: at[k] < |slugs| && here[k] == slugs[at[k]])
    && forall j, k | 0 <= j < k < |at| :: at[j] < at[k]
  }

  lemma {:induction false} ListedMore(here: seq<string>, slugs: seq<string>, at: seq<nat>, n: nat)
    requires n < |slugs| && ListedAt(here, slugs[..n], at)
    ensures ListedAt(here, slugs, at) && ListedAt(here + [slugs[n]], slugs, at + [n])
  {
  }

  lemma {:induction false} SlugPositions(experiments: seq<ParsedExperiment>, slugs: seq<string>, p: string) returns (at: seq<nat>)
    requires |slugs| == |experiments|
    ensures ListedAt(SlugsAt(experiments, slugs, p), slugs, at)
    ensures forall i | 0 <= i < |experiments| :: i in at <==> StandsAt(experiments[i], p)
    decreases |experiments|
  {
    at := [];
    if experiments != [] {
      var n := |experiments| - 1;
      var before := SlugPositions(experiments[..n], slugs[..n], p);
      var here := SlugsAt(experiments[..n], slugs[..n], p);
      ListedMore(here, slugs, before, n);
      if StandsAt(experiments[n], p) {
        at := before + [n];
        assert SlugsAt(experiments, slugs, p) == here + [slugs[n]];
      } else {
        at := before;
        assert SlugsAt(experiments, slugs, p) == here;
      }
      forall i | 0 <= i < |experiments| ensures i in at <==> i in before || (i == n && StandsAt(experiments[n], p)) {}
      assert forall i | 0 <= i < n :: experiments[..n][i] == experiments[i];
    }
  }

  /** They are the slugs of exactly the experiments that stand there, in their order. */
  lemma {:induction false} SlugsInOrder(experiments: seq<ParsedExperiment>, slugs: seq<string>, p: string) returns (at: seq<nat>)
    requires |slugs| == |experiments|
    ensures ListedAt(SlugsAt(experiments, slugs, p), slugs, at)
    ensures forall i | 0 <= i < |experiments| :: var e := experiments[i];
              i in at <==> e.path.Some? && e.path.value != "" && StripSlashes(e.path.value) == p
  {
    at := SlugPositions(experiments, slugs, p);
  }

  /** The dict holds exactly the paths that have slugs, each with its own list. */
  ghost predicate Groups(m: map<string, seq<string>>, experiments: seq<ParsedExperiment>, slugs: seq<string>)
    requires |slugs| == |experiments|
  {
    forall p :: if p in m then m[p] == SlugsAt(experiments, slugs, p) != [] else SlugsAt(experiments, slugs, p) == []
  }

  /** path_to_slugs.setdefault(path.rstrip("/"), []).append(slug) */
  function Appended(m: map<string, seq<string>>, p: string, slug: string): map<string, seq<string>> {
    m[p := (if p in m then m[p] else []) + [slug]]
  }

  lemma {:induction false} GroupsStep(m: map<string, seq<string>>, experiments: seq<ParsedExperiment>, slugs: seq<string>,
                                      e: ParsedExperiment, slug: string)
    requires |slugs| == |experiments| && Groups(m, experiments, slugs)
    ensures Groups(if HasPath(e) then Appended(m, StripSlashes(e.path.value), slug) else m, experiments + [e], slugs + [slug])
  {
    assert (experiments + [e])[..|experiments|] == experiments && (slugs + [slug])[..|slugs|] == slugs;
  }

  /** The dict of some allocation over the experiments; there is only one. */
  ghost predicate Reconstructs(m: map<string, seq<string>>, experiments: seq<ParsedExperiment>, baseOf: ParsedExperiment -> string) {
    exists slugs :: Allocated(Bases(experiments, baseOf), slugs) && Groups(m, experiments, slugs)
  }

  /** The archiver's reconstruction of path -> slugs. */
  method BuildPathToSlugs(experiments: seq<ParsedExperiment>, baseOf: ParsedExperiment -> string)
    returns (pathToSlugs: map<string, seq<string>>)
    ensures Reconstructs(pathToSlugs, experiments, baseOf)
  {
    var seen := new SeenSlugs();
    pathToSlugs := map[];
    ghost var slugs: seq<string> := [];
    ghost var bases := Bases(experiments, baseOf);
    var i := 0;
    while i < |experiments|
      invariant 0 <= i <= |experiments| && |slugs| == i
      invariant seen.seen == SetOf(slugs)
      invariant forall k | 0 <= k < i :: IsFirstFree(bases[k], SetOf(slugs[..k]), slugs[k])
      invariant Groups(pathToSlugs, experiments[..i], slugs)
    {
      var e := experiments[i];
      var slug := seen.BuildSlug(baseOf(e));
      GroupsStep(pathToSlugs, experiments[..i], slugs, e, slug);
      assert experiments[..i + 1] == experiments[..i] + [e];
      if HasPath(e) {
        pathToSlugs := Appended(pathToSlugs, StripSlashes(e.path.value), slug);
      }
      ghost var before := slugs;
      slugs := slugs + [slug];
      assert slugs[..i] == before;
      assert forall k | 0 <= k < i :: slugs[..k] == before[..k];
      i := i + 1;
    }
    assert experiments[..|experiments|] == experiments;
  }

  /** Under distinct slugs, the list of a path holds an experiment's slug once when
      the experiment stands at that path, and not at all otherwise. */
  lemma {:induction false} SlugsAtOnce(experiments: seq<ParsedExperiment>, slugs: seq<string>, p: string, i: nat)
    requires |slugs| == |experiments| && i < |experiments|
    requires forall j, k | 0 <= j < k < |slugs| :: slugs[j] != slugs[k]
    ensures var e := experiments[i];
      multiset(SlugsAt(experiments, slugs, p))[slugs[i]]
        == if StandsAt(e, p) then 1 else 0
    decreases |experiments|
  {
    var n := |experiments| - 1;
    var e := experiments[n];
    var earlier := SlugsAt(experiments[..n], slugs[..n], p);
    var last := if StandsAt(e, p) then [slugs[n]] else [];
    assert SlugsAt(experiments, slugs, p) == earlier + last;
    CountConcat(earlier, last, slugs[i]);
    if i < n {
      DistinctPrefix(slugs);
      SlugsAtOnce(experiments[..n], slugs[..n], p, i);
      assert slugs[i] !in last;
    } else {
      SlugsAtComeFrom(experiments[..n], slugs[..n], p);
      assert slugs[n] !in slugs[..n];
      assert slugs[n] !in earlier;
    }
  }

  lemma {:induction false} CountConcat(a: seq<string>, b: seq<string>, x: string)
    ensures multiset(a + b)[x] == multiset(a)[x] + multiset(b)[x]
    ensures x !in b ==> multiset(b)[x] == 0
  {
  }

  lemma {:induction false} DistinctPrefix(slugs: seq<string>)
    requires slugs != [] && forall j, k | 0 <= j < k < |slugs| :: slugs[j] != slugs[k]
    ensures var init := slugs[..|slugs| - 1];
      forall j, k | 0 <= j < k < |init| :: init[j] != init[k]
  {
  }

  lemma {:induction false} SlugsAtComeFrom(experiments: seq<ParsedExperiment>, slugs: seq<string>, p: string)
    requires |slugs| == |experiments|
    ensures forall s | s in SlugsAt(experiments, slugs, p) :: s in slugs
    decreases |experiments|
  {
    if experiments != [] {
      var n := |experiments| - 1;
      SlugsAtComeFrom(experiments[..n], slugs[..n], p);
      assert forall s | s in slugs[..n] :: s in slugs;
    }
  }

  /** The archiver's dict holds exactly the migration's slugs: each path-bearing
      experiment's slug once, under its own path and no other, and an experiment
      without a path nowhere. */
  lemma {:induction false} ReplayMatchesMigration(experiments: seq<ParsedExperiment>, baseOf: ParsedExperiment -> string,
                               migrated: seq<string>, m: map<string, seq<string>>)
    requires Allocated(Bases(experiments, baseOf), migrated) && Reconstructs(m, experiments, baseOf)
    ensures Groups(m, experiments, migrated)
    ensures forall p, i | p in m && 0 <= i < |experiments| ::
              multiset(m[p])[migrated[i]] ==
              if StandsAt(experiments[i], p) then 1 else 0
    ensures forall i | 0 <= i < |experiments| && HasPath(experiments[i]) :: StripSlashes(experiments[i].path.value) in m
  {
    var replayed :| Allocated(Bases(experiments, baseOf), replayed) && Groups(m, experiments, replayed);
    AllocationIsReplayable(Bases(experiments, baseOf), migrated, replayed);
    AllocatedAreDistinct(Bases(experiments, baseOf), migrated);
    forall p, i | p in m && 0 <= i < |experiments|
      ensures multiset(m[p])[migrated[i]] ==
              if StandsAt(experiments[i], p) then 1 else 0
    {
      SlugsAtOnce(experiments, migrated, p, i);
    }
    forall i | 0 <= i < |experiments| && HasPath(experiments[i]) ensures StripSlashes(experiments[i].path.value) in m {
      SlugsAtOnce(experiments, migrated, StripSlashes(experiments[i].path.value), i);
    }
  }
}
