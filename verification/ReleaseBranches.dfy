/**
 Rolling the release-branch jobs forward (tools/config-generator/udpaterelease.go).

 A repository's job list holds jobs of two kinds, continuous runs (`branch-ci`) and releases
 (`dot-release`), each for one release branch. When a newer branch exists, each kind drops its
 oldest branches and copies its newest jobs for the new branch.
 */
module ReleaseBranches {
  import opened Text

  const MAX_RELEASE_BRANCHES := 4

  /** A YAML value, as far as `getString` can tell them apart. */
  datatype Value = Str(s: string) | Strs(ss: seq<string>) | OtherValue(n: int)

  datatype Item = Item(key: string, value: Value)

  type Job = seq<Item>

  datatype Kind = Ci | Dot

  datatype Version = Version(major: int, minor: int)

  // ----- Versions ------------------------------------------------------------------------

  /** `majorMinor`; None where the source exits. */
  function ParseVersion(s: string): Option<Version>
  {
    var parts := Split(s, ".");
    if |parts| != 2 then None
    else
      match (Atoi(parts[0]), Atoi(parts[1]))
      case (Some(major), Some(minor)) => Some(Version(major, minor))
      case _ => None
  }

  function Comp(v: Version, w: Version): int
  {
    if v.major != w.major then v.major - w.major else v.minor - w.minor
  }

  /** The version of a branch name; used of well-formed names only. */
  function Ver(s: string): Version
  {
    match ParseVersion(s)
    case None => Version(0, 0)
    case Some(v) => v
  }

  ghost predicate Descending(s: seq<string>)
  {
    forall i, j :: 0 <= i < j < |s| ==> Comp(Ver(s[i]), Ver(s[j])) >= 0
  }

  /** What `sort.Slice` with `sortFunc`'s order may return; it need not be stable. */
  ghost predicate Sorting(s: seq<string>, sorted: seq<string>)
  {
    multiset(s) == multiset(sorted) && Descending(sorted)
  }

  function InsertVersion(x: string, s: seq<string>): (r: seq<string>)
    ensures multiset(r) == multiset(s) + multiset{x}
  {
    if s == [] || Comp(Ver(x), Ver(s[0])) >= 0 then [x] + s
    else
      assert s == [s[0]] + s[1..];
      [s[0]] + InsertVersion(x, s[1..])
  }

  lemma {:induction false} InsertDescending(x: string, s: seq<string>)
    requires Descending(s)
    ensures Descending(InsertVersion(x, s))
  {
    hide Ver;
    if s != [] && Comp(Ver(x), Ver(s[0])) < 0 {
      InsertDescending(x, s[1..]);
      var t := InsertVersion(x, s[1..]);
      forall j | 0 <= j < |t| ensures Comp(Ver(s[0]), Ver(t[j])) >= 0 {
        assert t[j] in multiset(t);
        assert t[j] == x || t[j] in s[1..];
      }
    }
  }

  method SortVersions(branches: seq<string>) returns (sorted: seq<string>)
    ensures Sorting(branches, sorted)
  {
    sorted := [];
    for i := 0 to |branches|
      invariant Sorting(branches[..i], sorted)
    {
      assert branches[..i + 1] == branches[..i] + [branches[i]];
      InsertDescending(branches[i], sorted);
      sorted := InsertVersion(branches[i], sorted);
    }
    assert branches[..|branches|] == branches;
  }

  // ----- Jobs ----------------------------------------------------------------------------

  /** `getString`; None where the source exits. */
  function GetString(v: Value): Option<string>
  {
    match v
    case Str(s) => Some(s)
    case Strs(ss) => if |ss| == 1 then Some(ss[0]) else None
    case OtherValue(_) => None
  }

  predicate HasKey(job: Job, key: string)
  {
    exists i :: 0 <= i < |job| && job[i].key == key
  }

  /** The value of the last `release` item, "" if there is none. */
  function Release(job: Job): Option<string>
  {
    if job == [] then Some("")
    else
      var before := Release(job[..|job|-1]);
      var item := job[|job|-1];
      if before.None? then None
      else if item.key == "release" then GetString(item.value) else before
  }

  function KindOf(job: Job): Option<Kind>
  {
    if HasKey(job, "branch-ci") then Some(Ci) else if HasKey(job, "dot-release") then Some(Dot) else None
  }

  /** The branch of the job if it is of the given kind, "" otherwise. */
  function Branch(job: Job, kind: Kind): string
  {
    if Release(job).Some? && KindOf(job) == Some(kind) then Release(job).value else ""
  }

  method GetBranch(job: Job) returns (r: Option<(string, string)>)
    ensures r == if Release(job).None? then None else Some((Branch(job, Ci), Branch(job, Dot)))
  {
    var branch, isBranchCi, isRelease := "", false, false;
    for i := 0 to |job|
      invariant Release(job[..i]) == Some(branch)
      invariant isBranchCi <==> HasKey(job[..i], "branch-ci")
      invariant isRelease <==> HasKey(job[..i], "dot-release")
    {
      ghost var seen := job[..i + 1];
      assert seen[..i] == job[..i];
      if job[i].key == "branch-ci" {
        isBranchCi := true;
      } else if job[i].key == "dot-release" {
        isRelease := true;
      } else if job[i].key == "release" {
        var s := GetString(job[i].value);
        if s.None? {
          ReleaseStops(job, i + 1);
          return None;
        }
        branch := s.value;
      }
      assert forall key :: HasKey(seen, key) <==> HasKey(job[..i], key) || job[i].key == key by {
        KeysGrow(job, i);
      }
    }
    assert job[..|job|] == job;
    if branch == "" {
      return Some(("", ""));
    }
    if isBranchCi {
      return Some((branch, ""));
    } else if isRelease {
      return Some(("", branch));
    }
    r := Some(("", ""));
  }

  lemma KeysGrow(job: Job, i: nat)
    requires i < |job|
    ensures forall key :: HasKey(job[..i + 1], key) <==> HasKey(job[..i], key) || job[i].key == key
  {
    forall key ensures HasKey(job[..i + 1], key) <==> HasKey(job[..i], key) || job[i].key == key {
      assert job[..i + 1][i] == job[i];
      if k :| 0 <= k < |job[..i]| && job[..i][k].key == key {
        assert job[..i + 1][k].key == key;
      }
      var more := job[..i + 1];
      if k :| 0 <= k < |more| && more[k].key == key {
        assert k < i ==> job[..i][k].key == key;
      }
    }
  }

  lemma {:induction false} ReleaseStops(job: Job, i: nat)
    requires i <= |job| && Release(job[..i]).None?
    ensures Release(job).None?
  {
    if i < |job| {
      assert job[..|job|-1][..i] == job[..i];
      ReleaseStops(job[..|job|-1], i);
    } else {
      assert job[..i] == job;
    }
  }

  /** The job with every `release` item set to `latest`. */
  function Copy(job: Job, latest: string): (r: Job)
    ensures |r| == |job| && forall i :: 0 <= i < |job| ==>
              && r[i].key == job[i].key
              && (if job[i].key == "release" then r[i].value == Str(latest) else r[i].value == job[i].value)
  {
    seq(|job|, i requires 0 <= i < |job| =>
      if job[i].key == "release" then Item(job[i].key, Str(latest)) else job[i])
  }

  /** The copy is a job of the same kind, for the new branch. */
  lemma {:induction false} CopyBranch(job: Job, kind: Kind, latest: string)
    requires Branch(job, kind) != ""
    ensures Branch(Copy(job, latest), kind) == latest
    ensures KindOf(Copy(job, latest)) == Some(kind)
  {
    CopyRelease(job, latest);
    var c := Copy(job, latest);
    assert forall i :: 0 <= i < |job| ==> c[i].key == job[i].key;
    forall key ensures HasKey(c, key) <==> HasKey(job, key) {
      if i :| 0 <= i < |job| && job[i].key == key { assert c[i].key == key; }
      if i :| 0 <= i < |c| && c[i].key == key { assert job[i].key == key; }
    }
  }

  lemma {:induction false} CopyRelease(job: Job, latest: string)
    requires Release(job).Some?
    ensures Release(Copy(job, latest))
         == Some(if Release(job) == Some("") && !HasKey(job, "release") then "" else latest)
    ensures Release(job) != Some("") ==> HasKey(job, "release")
  {
    if job != [] {
      var before := job[..|job|-1];
      CopyRelease(before, latest);
      assert Copy(job, latest)[..|job|-1] == Copy(before, latest);
      KeysGrow(job, |job|-1);
      assert job[..|job|] == job;
    }
  }

  // ----- One pass over a job list --------------------------------------------------------

  /** The branches of one kind, in the order of the jobs. */
  function Branches(jobs: seq<Job>, kind: Kind): seq<string>
  {
    if jobs == [] then []
    else
      var b := Branch(jobs[|jobs|-1], kind);
      Branches(jobs[..|jobs|-1], kind) + if b != "" then [b] else []
  }

  /** The oldest branch kept: the third entry of the sorted list, with repetitions. */
  function Oldest(sorted: seq<string>): string
  {
    if |sorted| >= MAX_RELEASE_BRANCHES - 1 then sorted[MAX_RELEASE_BRANCHES - 2] else "0.0"
  }

  /** What one job becomes. */
  function Emit(job: Job, kind: Kind, sorted: seq<string>, latest: string): seq<Job>
    requires sorted != []
  {
    var b := Branch(job, kind);
    if b == "" then [job]
    else if Comp(Ver(b), Ver(Oldest(sorted))) < 0 then []
    else if b == sorted[0] then [job, Copy(job, latest)]
    else [job]
  }

  function UpdatedJobs(jobs: seq<Job>, kind: Kind, sorted: seq<string>, latest: string): seq<Job>
    requires sorted != []
  {
    if jobs == [] then []
    else UpdatedJobs(jobs[..|jobs|-1], kind, sorted, latest) + Emit(jobs[|jobs|-1], kind, sorted, latest)
  }

  lemma EmitNext(jobs: seq<Job>, i: nat, kind: Kind, sorted: seq<string>, latest: string)
    requires i < |jobs| && sorted != []
    ensures UpdatedJobs(jobs[..i + 1], kind, sorted, latest)
         == UpdatedJobs(jobs[..i], kind, sorted, latest) + Emit(jobs[i], kind, sorted, latest)
  {
    assert jobs[..i + 1][..i] == jobs[..i];
  }

  predicate WellFormed(branches: seq<string>)
  {
    forall i :: 0 <= i < |branches| ==> ParseVersion(branches[i]).Some?
  }

  lemma SortingLength(s: seq<string>, sorted: seq<string>)
    requires Sorting(s, sorted)
    ensures |sorted| == |s|
  {
    assert |sorted| == |multiset(sorted)| == |multiset(s)| == |s|;
  }

  lemma NothingUpdated(kind: Kind, sorted: seq<string>, latest: string)
    requires sorted != []
    ensures UpdatedJobs([], kind, sorted, latest) == []
  {
  }

  /** `updateConfigForJob`; None where a malformed version makes the source exit. */
  method UpdateConfigForJob(jobs: seq<Job>, branches: seq<string>, latest: string, kind: Kind)
    returns (r: Option<seq<Job>>)
    requires branches == Branches(jobs, kind) != []
    ensures r.Some? <==> WellFormed(branches)
    ensures r.Some? ==> exists sorted :: Sorting(branches, sorted) && sorted != []
                                        && r.value == UpdatedJobs(jobs, kind, sorted, latest)
  {
    hide Branch, Ver, Copy, Branches, UpdatedJobs, Sorting, WellFormed;
    if !WellFormed(branches) {
      return None;
    }
    var sorted := SortVersions(branches);
    SortingLength(branches, sorted);
    assert jobs[..0] == [];
    NothingUpdated(kind, sorted, latest);
    var oldestBranchToSupport := Oldest(sorted);
    var updated: seq<Job> := [];
    for i := 0 to |jobs|
      invariant updated == UpdatedJobs(jobs[..i], kind, sorted, latest)
    {
      EmitNext(jobs, i, kind, sorted, latest);
      var branch := Branch(jobs[i], kind);
      if branch == "" {
        updated := updated + [jobs[i]];
        continue;
      }
      if Comp(Ver(branch), Ver(oldestBranchToSupport)) < 0 {
        assert updated + [] == updated;
        continue;
      }
      updated := updated + [jobs[i]];
      if branch == sorted[0] {
        updated := updated + [Copy(jobs[i], latest)];
      }
    }
    assert jobs[..|jobs|] == jobs;
    r := Some(updated);
  }

  // ----- The whole rewrite ---------------------------------------------------------------

  /** One kind of one repository: `after` is a result the source may produce from `jobs`. */
  ghost predicate Pass(jobs: seq<Job>, kind: Kind, latest: string, after: seq<Job>)
  {
    var branches := Branches(jobs, kind);
    if latest in branches || branches == [] then after == jobs
    else exists sorted :: Sorting(branches, sorted) && sorted != []
                          && after == UpdatedJobs(jobs, kind, sorted, latest)
  }

  /** Both kinds of one repository; nothing happens without a release branch. */
  ghost predicate Rewrite(jobs: seq<Job>, latest: string, after: seq<Job>)
  {
    if latest == "" then after == jobs
    else exists mid :: Pass(jobs, Ci, latest, mid) && Pass(mid, Dot, latest, after)
  }

  datatype Repo = Repo(name: string, jobs: seq<Job>)

  predicate Readable(jobs: seq<Job>)
  {
    forall i :: 0 <= i < |jobs| ==> Release(jobs[i]).Some?
  }

  predicate NeedsUpdate(jobs: seq<Job>, kind: Kind, latest: string)
  {
    latest !in Branches(jobs, kind) && Branches(jobs, kind) != []
  }

  /** The inputs on which the source gives up: a `release` that is no string, or a version it has to
      compare and cannot read. */
  predicate Exits(jobs: seq<Job>, latest: string)
  {
    || !Readable(jobs)
    || (NeedsUpdate(jobs, Ci, latest) && !WellFormed(Branches(jobs, Ci)))
    || (NeedsUpdate(jobs, Dot, latest) && !WellFormed(Branches(jobs, Dot)))
  }

  /** Lines 86-102: the branches of both kinds, and whether the newest is among them. */
  method CollectBranches(jobs: seq<Job>, latest: string)
    returns (readable: bool, ciBranches: seq<string>, releaseBranches: seq<string>, skipCi: bool, skipRelease: bool)
    ensures readable <==> Readable(jobs)
    ensures readable ==> ciBranches == Branches(jobs, Ci) && releaseBranches == Branches(jobs, Dot)
    ensures readable ==> (skipCi <==> latest in ciBranches) && (skipRelease <==> latest in releaseBranches)
  {
    hide Branch, Release;
    ciBranches, releaseBranches, skipCi, skipRelease := [], [], false, false;
    for i := 0 to |jobs|
      invariant forall k :: 0 <= k < i ==> Release(jobs[k]).Some?
      invariant ciBranches == Branches(jobs[..i], Ci) && releaseBranches == Branches(jobs[..i], Dot)
      invariant skipCi <==> latest in ciBranches
      invariant skipRelease <==> latest in releaseBranches
    {
      assert jobs[..i + 1][..i] == jobs[..i];
      var pair := GetBranch(jobs[i]);
      if pair.None? {
        return false, [], [], false, false;
      }
      var (ciBranch, releaseBranch) := pair.value;
      if ciBranch != "" {
        ciBranches := ciBranches + [ciBranch];
        if ciBranch == latest { skipCi := true; }
      }
      if releaseBranch != "" {
        releaseBranches := releaseBranches + [releaseBranch];
        if releaseBranch == latest { skipRelease := true; }
      }
    }
    assert jobs[..|jobs|] == jobs;
    readable := true;
  }

  method RewriteRepo(jobs: seq<Job>, latest: string) returns (r: Option<seq<Job>>)
    requires latest != ""
    ensures r.Some? ==> Rewrite(jobs, latest, r.value)
    ensures r.None? <==> Exits(jobs, latest)
  {
    hide UpdatedJobs, Branches, WellFormed, Readable, Sorting;
    var readable, ciBranches, releaseBranches, skipCi, skipRelease := CollectBranches(jobs, latest);
    if !readable {
      return None;
    }
    var configs := jobs;
    if !skipCi && |ciBranches| > 0 {
      var updated := UpdateConfigForJob(configs, ciBranches, latest, Ci);
      if updated.None? {
        return None;
      }
      configs := updated.value;
    }
    assert Pass(jobs, Ci, latest, configs);
    PassKeepsOtherKind(jobs, Ci, latest, configs);
    ghost var mid := configs;
    if !skipRelease && |releaseBranches| > 0 {
      var updated := UpdateConfigForJob(configs, releaseBranches, latest, Dot);
      if updated.None? {
        return None;
      }
      configs := updated.value;
    }
    assert Pass(mid, Dot, latest, configs);
    r := Some(configs);
  }

  /** The newest branch is known, and the source does not exit. */
  predicate Updatable(repo: Repo, latest: string -> Option<string>)
  {
    match latest(repo.name)
    case None => false
    case Some(branch) => branch == "" || !Exits(repo.jobs, branch)
  }

  /** `getReposMap`: rewrites the slice in place. `latest` is the newest release branch of a
      repository, "" without one, None when it cannot be listed. */
  method GetReposMap(reposMap: array<Repo>, latest: string -> Option<string>) returns (ok: bool)
    modifies reposMap
    ensures ok <==> forall j :: 0 <= j < reposMap.Length ==> Updatable(old(reposMap[j]), latest)
    ensures ok ==> forall j :: 0 <= j < reposMap.Length ==>
              && reposMap[j].name == old(reposMap[j].name)
              && latest(reposMap[j].name).Some?
              && Rewrite(old(reposMap[j].jobs), latest(reposMap[j].name).value, reposMap[j].jobs)
  {
    hide Exits, Pass;
    for j := 0 to reposMap.Length
      invariant forall i :: 0 <= i < j ==> Updatable(old(reposMap[i]), latest)
      invariant forall i :: 0 <= i < j ==>
                  && reposMap[i].name == old(reposMap[i].name)
                  && latest(reposMap[i].name).Some?
                  && Rewrite(old(reposMap[i].jobs), latest(reposMap[i].name).value, reposMap[i].jobs)
      invariant forall i :: j <= i < reposMap.Length ==> reposMap[i] == old(reposMap[i])
    {
      var repo := reposMap[j];
      var newest := latest(repo.name);
      if newest.None? {
        return false;
      }
      if newest.value == "" {
        continue;
      }
      var jobs := RewriteRepo(repo.jobs, newest.value);
      if jobs.None? {
        return false;
      }
      reposMap[j] := Repo(repo.name, jobs.value);
    }
    ok := true;
  }

  // ----- What a pass does to the other kind ----------------------------------------------

  lemma {:induction false} BranchesConcat(a: seq<Job>, b: seq<Job>, kind: Kind)
    ensures Branches(a + b, kind) == Branches(a, kind) + Branches(b, kind)
  {
    hide Branch;
    if b == [] {
      assert a + b == a;
    } else {
      assert (a + b)[..|a + b|-1] == a + b[..|b|-1];
      BranchesConcat(a, b[..|b|-1], kind);
    }
  }

  lemma BranchesOne(job: Job, kind: Kind)
    ensures Branches([job], kind) == if Branch(job, kind) != "" then [Branch(job, kind)] else []
  {
    hide Branch;
    assert [job][..0] == [];
  }

  lemma OneKind(job: Job, kind: Kind, other: Kind)
    requires kind != other && Branch(job, kind) != ""
    ensures Branch(job, other) == ""
  {
  }

  lemma CopyOther(job: Job, kind: Kind, other: Kind, latest: string)
    requires kind != other && Branch(job, kind) != ""
    ensures Branch(Copy(job, latest), other) == ""
  {
    CopyBranch(job, kind, latest);
  }

  lemma EmitOtherKind(job: Job, kind: Kind, other: Kind, sorted: seq<string>, latest: string)
    requires kind != other && sorted != []
    ensures Branches(Emit(job, kind, sorted, latest), other) == Branches([job], other)
    ensures Branch(job, kind) == "" ==> Emit(job, kind, sorted, latest) == [job]
    ensures Branch(job, kind) != "" ==> Branch(job, other) == ""
  {
    hide Ver, Branch, Copy, Oldest;
    BranchesOne(job, other);
    if Branch(job, kind) != "" {
      OneKind(job, kind, other);
      CopyOther(job, kind, other, latest);
      assert [job, Copy(job, latest)] == [job] + [Copy(job, latest)];
      BranchesConcat([job], [Copy(job, latest)], other);
      BranchesOne(Copy(job, latest), other);
    }
  }

  lemma {:induction false} OtherBranchesKept(jobs: seq<Job>, kind: Kind, other: Kind, sorted: seq<string>,
                                             latest: string)
    requires kind != other && sorted != []
    ensures Branches(UpdatedJobs(jobs, kind, sorted, latest), other) == Branches(jobs, other)
  {
    hide Branch, Emit;
    if jobs != [] {
      var before, job := jobs[..|jobs|-1], jobs[|jobs|-1];
      OtherBranchesKept(before, kind, other, sorted, latest);
      EmitOtherKind(job, kind, other, sorted, latest);
      BranchesConcat(UpdatedJobs(before, kind, sorted, latest), Emit(job, kind, sorted, latest), other);
      BranchesConcat(before, [job], other);
      assert jobs == before + [job];
    }
  }

  lemma PassKeepsOtherKind(jobs: seq<Job>, kind: Kind, latest: string, after: seq<Job>)
    requires Pass(jobs, kind, latest, after)
    ensures forall other :: other != kind ==> Branches(after, other) == Branches(jobs, other)
  {
    hide Branches, UpdatedJobs;
    forall other | other != kind ensures Branches(after, other) == Branches(jobs, other) {
      if sorted :|
        sorted != [] && Sorting(Branches(jobs, kind), sorted) && after == UpdatedJobs(jobs, kind, sorted, latest)
      {
        OtherBranchesKept(jobs, kind, other, sorted, latest);
      }
    }
  }

  // ----- The passes commute --------------------------------------------------------------

  lemma {:induction false} UpdatedConcat(a: seq<Job>, b: seq<Job>, kind: Kind, sorted: seq<string>, latest: string)
    requires sorted != []
    ensures UpdatedJobs(a + b, kind, sorted, latest)
         == UpdatedJobs(a, kind, sorted, latest) + UpdatedJobs(b, kind, sorted, latest)
  {
    hide Emit;
    if b == [] {
      assert a + b == a;
    } else {
      assert (a + b)[..|a + b|-1] == a + b[..|b|-1];
      UpdatedConcat(a, b[..|b|-1], kind, sorted, latest);
    }
  }

  lemma UpdatedOne(job: Job, kind: Kind, sorted: seq<string>, latest: string)
    requires sorted != []
    ensures UpdatedJobs([job], kind, sorted, latest) == Emit(job, kind, sorted, latest)
  {
    hide Emit;
    assert [job][..0] == [];
  }

  lemma EmitUntouched(job: Job, kind: Kind, other: Kind, sorted: seq<string>, sorted': seq<string>, latest: string)
    requires kind != other && sorted != [] && sorted' != []
    requires Branch(job, other) == ""
    ensures UpdatedJobs(Emit(job, kind, sorted, latest), other, sorted', latest) == Emit(job, kind, sorted, latest)
    ensures Emit(job, other, sorted', latest) == [job]
  {
    hide Ver, Branch, Copy, Oldest;
    UpdatedOne(job, other, sorted', latest);
    if Branch(job, kind) != "" {
      CopyOther(job, kind, other, latest);
      UpdatedConcat([job], [Copy(job, latest)], other, sorted', latest);
      UpdatedOne(Copy(job, latest), other, sorted', latest);
      assert [job, Copy(job, latest)] == [job] + [Copy(job, latest)];
    }
  }

  lemma EmitsCommute(job: Job, s: seq<string>, s': seq<string>, latest: string)
    requires s != [] && s' != []
    ensures UpdatedJobs(Emit(job, Ci, s, latest), Dot, s', latest)
         == UpdatedJobs(Emit(job, Dot, s', latest), Ci, s, latest)
  {
    hide Emit, UpdatedJobs;
    EmitOtherKind(job, Ci, Dot, s, latest);
    if Branch(job, Ci) != "" {
      EmitUntouched(job, Ci, Dot, s, s', latest);
      UpdatedOne(job, Ci, s, latest);
    } else {
      EmitUntouched(job, Dot, Ci, s', s, latest);
      UpdatedOne(job, Dot, s', latest);
    }
  }

  lemma {:induction false} UpdatesCommute(jobs: seq<Job>, s: seq<string>, s': seq<string>, latest: string)
    requires s != [] && s' != []
    ensures UpdatedJobs(UpdatedJobs(jobs, Ci, s, latest), Dot, s', latest)
         == UpdatedJobs(UpdatedJobs(jobs, Dot, s', latest), Ci, s, latest)
  {
    hide Emit;
    if jobs != [] {
      var before, job := jobs[..|jobs|-1], jobs[|jobs|-1];
      UpdatesCommute(before, s, s', latest);
      UpdatedConcat(UpdatedJobs(before, Ci, s, latest), Emit(job, Ci, s, latest), Dot, s', latest);
      UpdatedConcat(UpdatedJobs(before, Dot, s', latest), Emit(job, Dot, s', latest), Ci, s, latest);
      EmitsCommute(job, s, s', latest);
    }
  }

  /** The two passes may be run in either order, on any job list, also with jobs that carry both
      keys: the possible results are the same. */
  lemma PassesCommute(jobs: seq<Job>, latest: string, after: seq<Job>)
    ensures (exists mid :: Pass(jobs, Ci, latest, mid) && Pass(mid, Dot, latest, after))
       <==> (exists mid :: Pass(jobs, Dot, latest, mid) && Pass(mid, Ci, latest, after))
  {
    hide Pass;
    if mid :| Pass(jobs, Ci, latest, mid) && Pass(mid, Dot, latest, after) {
      var mid' := SwapPasses(jobs, Ci, Dot, latest, mid, after);
    }
    if mid :| Pass(jobs, Dot, latest, mid) && Pass(mid, Ci, latest, after) {
      var mid' := SwapPasses(jobs, Dot, Ci, latest, mid, after);
    }
  }

  lemma SwapPasses(jobs: seq<Job>, kind: Kind, other: Kind, latest: string, mid: seq<Job>, after: seq<Job>)
    returns (mid': seq<Job>)
    requires kind != other && Pass(jobs, kind, latest, mid) && Pass(mid, other, latest, after)
    ensures Pass(jobs, other, latest, mid') && Pass(mid', kind, latest, after)
  {
    hide Branches, UpdatedJobs, Sorting;
    PassKeepsOtherKind(jobs, kind, latest, mid);
    var branches, branches' := Branches(jobs, kind), Branches(jobs, other);
    if latest in branches || branches == [] {
      mid' := after;
      PassKeepsOtherKind(jobs, other, latest, after);
    } else if latest in branches' || branches' == [] {
      mid' := jobs;
    } else {
      var s :| Sorting(branches, s) && s != [] && mid == UpdatedJobs(jobs, kind, s, latest);
      var s' :| Sorting(branches', s') && s' != [] && after == UpdatedJobs(mid, other, s', latest);
      mid' := UpdatedJobs(jobs, other, s', latest);
      assert Pass(jobs, other, latest, mid');
      PassKeepsOtherKind(jobs, other, latest, mid');
      if kind == Ci { UpdatesCommute(jobs, s, s', latest); } else { UpdatesCommute(jobs, s', s, latest); }
      assert after == UpdatedJobs(mid', kind, s, latest);
    }
  }

  // ----- Idempotence ---------------------------------------------------------------------

  lemma {:induction false} BranchesFrom(jobs: seq<Job>, kind: Kind, b: string)
    requires b in Branches(jobs, kind)
    ensures b != "" && exists i :: 0 <= i < |jobs| && Branch(jobs[i], kind) == b
  {
    hide Branch;
    if jobs != [] {
      var before := jobs[..|jobs|-1];
      if b in Branches(before, kind) {
        BranchesFrom(before, kind, b);
        var i :| 0 <= i < |before| && Branch(before[i], kind) == b;
        assert Branch(jobs[i], kind) == b;
      } else {
        assert Branch(jobs[|jobs|-1], kind) == b;
      }
    }
  }

  lemma {:induction false} BranchesOf(jobs: seq<Job>, kind: Kind, i: nat)
    requires i < |jobs| && Branch(jobs[i], kind) != ""
    ensures Branch(jobs[i], kind) in Branches(jobs, kind)
  {
    hide Branch;
    if i < |jobs|-1 {
      assert jobs[..|jobs|-1][i] == jobs[i];
      BranchesOf(jobs[..|jobs|-1], kind, i);
    }
  }

  lemma {:induction false} UpdatedHas(jobs: seq<Job>, kind: Kind, sorted: seq<string>, latest: string, i: nat)
    requires sorted != [] && i < |jobs|
    ensures forall b :: b in Branches(Emit(jobs[i], kind, sorted, latest), kind)
              ==> b in Branches(UpdatedJobs(jobs, kind, sorted, latest), kind)
  {
    hide Emit, Branch;
    var before, job := jobs[..|jobs|-1], jobs[|jobs|-1];
    BranchesConcat(UpdatedJobs(before, kind, sorted, latest), Emit(job, kind, sorted, latest), kind);
    if i < |jobs|-1 {
      assert before[i] == jobs[i];
      UpdatedHas(before, kind, sorted, latest, i);
    }
  }

  /** The branches of an emitted job. */
  lemma EmitBranches(job: Job, kind: Kind, sorted: seq<string>, latest: string)
    requires sorted != [] && latest != ""
    ensures var b := Branch(job, kind);
            Branches(Emit(job, kind, sorted, latest), kind) ==
            if b == "" || Comp(Ver(b), Ver(Oldest(sorted))) < 0 then []
            else if b == sorted[0] then [b, latest]
            else [b]
  {
    hide Ver;
    var b := Branch(job, kind);
    BranchesOne(job, kind);
    if b != "" {
      CopyBranch(job, kind, latest);
      BranchesOne(Copy(job, latest), kind);
      BranchesConcat([job], [Copy(job, latest)], kind);
      assert [job, Copy(job, latest)] == [job] + [Copy(job, latest)];
    }
  }

  lemma {:induction false} UpdatedOnlyNewer(jobs: seq<Job>, kind: Kind, sorted: seq<string>, latest: string, b: string)
    requires sorted != [] && latest != ""
    requires b in Branches(UpdatedJobs(jobs, kind, sorted, latest), kind)
    ensures (b in Branches(jobs, kind) && Comp(Ver(b), Ver(Oldest(sorted))) >= 0)
         || (b == latest && sorted[0] in Branches(jobs, kind) && Comp(Ver(sorted[0]), Ver(Oldest(sorted))) >= 0)
  {
    hide Emit, Branch, Ver, Oldest;
    if jobs != [] {
      var before, job := jobs[..|jobs|-1], jobs[|jobs|-1];
      BranchesConcat(UpdatedJobs(before, kind, sorted, latest), Emit(job, kind, sorted, latest), kind);
      if b in Branches(UpdatedJobs(before, kind, sorted, latest), kind) {
        UpdatedOnlyNewer(before, kind, sorted, latest, b);
      } else {
        EmitBranches(job, kind, sorted, latest);
        BranchesOf(jobs, kind, |jobs|-1);
      }
    }
  }

  /** After an update of one kind the next run has nothing to do for it: its newest job survived and
      was copied, unless every branch is older than 0.0 and all of them are gone. */
  lemma UpdateSettles(jobs: seq<Job>, kind: Kind, latest: string, after: seq<Job>)
    requires latest != "" && Pass(jobs, kind, latest, after)
    ensures latest in Branches(after, kind) || Branches(after, kind) == []
  {
    hide Branches, UpdatedJobs, Ver, Branch, Emit;
    var branches := Branches(jobs, kind);
    if sorted :| sorted != [] && Sorting(branches, sorted) && after == UpdatedJobs(jobs, kind, sorted, latest) {
      assert forall b :: b in branches <==> b in multiset(branches);
      assert sorted[0] in multiset(sorted);
      var left := Branches(after, kind);
      forall b | b in left ensures b == latest || Comp(Ver(sorted[0]), Ver(Oldest(sorted))) >= 0 {
        UpdatedOnlyNewer(jobs, kind, sorted, latest, b);
        if b in branches { NewestIsNewest(branches, sorted, b); }
      }
      if Comp(Ver(sorted[0]), Ver(Oldest(sorted))) >= 0 {
        BranchesFrom(jobs, kind, sorted[0]);
        var i :| 0 <= i < |jobs| && Branch(jobs[i], kind) == sorted[0];
        EmitBranches(jobs[i], kind, sorted, latest);
        UpdatedHas(jobs, kind, sorted, latest, i);
      } else {
        HasMember(left);
      }
    }
  }

  lemma HasMember(s: seq<string>)
    ensures s != [] ==> exists b :: b in s
  {
    if s != [] {
      assert s[0] in s;
    }
  }

  lemma NewestIsNewest(branches: seq<string>, sorted: seq<string>, b: string)
    requires Sorting(branches, sorted) && b in branches
    ensures sorted != [] && Comp(Ver(sorted[0]), Ver(b)) >= 0
  {
    hide Ver;
    assert b in multiset(branches);
    assert b in sorted;
  }

  /** Applying the rewrite twice equals applying it once, for every order in which the unstable
      sort may leave equal versions. */
  lemma RewriteIsIdempotent(jobs: seq<Job>, latest: string, once: seq<Job>, twice: seq<Job>)
    requires Rewrite(jobs, latest, once) && Rewrite(once, latest, twice)
    ensures twice == once
  {
    hide Branches, UpdatedJobs, Sorting;
    if latest != "" {
      var mid :| Pass(jobs, Ci, latest, mid) && Pass(mid, Dot, latest, once);
      UpdateSettles(jobs, Ci, latest, mid);
      UpdateSettles(mid, Dot, latest, once);
      PassKeepsOtherKind(mid, Dot, latest, once);
      assert Branches(once, Ci) == Branches(mid, Ci);
      var mid' :| Pass(once, Ci, latest, mid') && Pass(mid', Dot, latest, twice);
      assert mid' == once;
    }
  }

  // ----- The window ----------------------------------------------------------------------

  ghost function Versions(jobs: seq<Job>, kind: Kind): set<Version>
  {
    set b | b in Branches(jobs, kind) :: Ver(b)
  }

  /** The versions not older than the third entry are those of the first three entries. */
  lemma WindowIsThree(branches: seq<string>, sorted: seq<string>, b: string)
    requires Sorting(branches, sorted) && b in branches && Comp(Ver(b), Ver(Oldest(sorted))) >= 0
    ensures exists k :: 0 <= k < 3 && k < |sorted| && Ver(b) == Ver(sorted[k])
  {
    hide Ver;
    assert b in multiset(branches);
    var k :| 0 <= k < |sorted| && sorted[k] == b;
    if k >= 3 {
      assert Comp(Ver(sorted[2]), Ver(sorted[k])) >= 0;
      assert Ver(b) == Ver(sorted[2]);
    } else {
      assert Ver(b) == Ver(sorted[k]);
    }
  }

  /** After an update at most four versions of the kind are left: those not older than the third
      entry of the sorted list, and the new one. */
  lemma AtMostFourVersions(jobs: seq<Job>, kind: Kind, latest: string, after: seq<Job>)
    requires latest != "" && NeedsUpdate(jobs, kind, latest) && Pass(jobs, kind, latest, after)
    ensures |Versions(after, kind)| <= MAX_RELEASE_BRANCHES
  {
    hide Branches, UpdatedJobs, Ver, Oldest;
    var branches := Branches(jobs, kind);
    var sorted :| sorted != [] && Sorting(branches, sorted) && after == UpdatedJobs(jobs, kind, sorted, latest);
    var top := set k | 0 <= k < 3 && k < |sorted| :: Ver(sorted[k]);
    forall b | b in Branches(after, kind) ensures Ver(b) in top + {Ver(latest)} {
      UpdatedOnlyNewer(jobs, kind, sorted, latest, b);
      if b in branches && Comp(Ver(b), Ver(Oldest(sorted))) >= 0 {
        WindowIsThree(branches, sorted, b);
      }
    }
    TopThree(sorted, top);
    SubsetSize(Versions(after, kind), top + {Ver(latest)});
  }

  lemma TopThree(sorted: seq<string>, top: set<Version>)
    requires top == set k | 0 <= k < 3 && k < |sorted| :: Ver(sorted[k])
    ensures |top| <= 3
  {
    hide Ver;
    var named := if |sorted| == 0 then {}
                 else if |sorted| == 1 then {Ver(sorted[0])}
                 else if |sorted| == 2 then {Ver(sorted[0]), Ver(sorted[1])}
                 else {Ver(sorted[0]), Ver(sorted[1]), Ver(sorted[2])};
    assert top <= named;
    SubsetSize(top, named);
  }

  /** The jobs that satisfy `p`, in order. */
  function Keep(jobs: seq<Job>, p: Job -> bool): seq<Job>
  {
    if jobs == [] then []
    else Keep(jobs[..|jobs|-1], p) + if p(jobs[|jobs|-1]) then [jobs[|jobs|-1]] else []
  }

  lemma {:induction false} KeepConcat(a: seq<Job>, b: seq<Job>, p: Job -> bool)
    ensures Keep(a + b, p) == Keep(a, p) + Keep(b, p)
  {
    if b == [] {
      assert a + b == a;
    } else {
      assert (a + b)[..|a + b|-1] == a + b[..|b|-1];
      KeepConcat(a, b[..|b|-1], p);
    }
  }

  lemma KeepOne(job: Job, p: Job -> bool)
    ensures Keep([job], p) == if p(job) then [job] else []
  {
    assert [job][..0] == [];
  }

  /** The job stays in an update of the kind: it is of another kind, or new enough. */
  predicate Stays(job: Job, kind: Kind, sorted: seq<string>)
  {
    Branch(job, kind) == "" || Comp(Ver(Branch(job, kind)), Ver(Oldest(sorted))) >= 0
  }

  function Copies(jobs: seq<Job>, latest: string): seq<Job>
  {
    seq(|jobs|, i requires 0 <= i < |jobs| => Copy(jobs[i], latest))
  }

  function IsFor(kind: Kind, b: string): Job -> bool
  {
    j => Branch(j, kind) == b
  }

  function NotFor(kind: Kind, b: string): Job -> bool
  {
    j => Branch(j, kind) != b
  }

  function StaysIn(kind: Kind, sorted: seq<string>): Job -> bool
  {
    j => Stays(j, kind, sorted)
  }

  function NewestStays(kind: Kind, sorted: seq<string>): Job -> bool
    requires sorted != []
  {
    j => Stays(j, kind, sorted) && Branch(j, kind) == sorted[0]
  }

  lemma EmitSplit(job: Job, kind: Kind, sorted: seq<string>, latest: string)
    requires sorted != [] && sorted[0] != "" && latest != "" && Branch(job, kind) != latest
    ensures Keep(Emit(job, kind, sorted, latest), NotFor(kind, latest)) == Keep([job], StaysIn(kind, sorted))
    ensures Keep(Emit(job, kind, sorted, latest), IsFor(kind, latest))
         == Copies(Keep([job], NewestStays(kind, sorted)), latest)
  {
    hide Ver, Branch, Oldest, Keep;
    KeepOne(job, NotFor(kind, latest));
    KeepOne(job, IsFor(kind, latest));
    KeepOne(job, StaysIn(kind, sorted));
    KeepOne(job, NewestStays(kind, sorted));
    KeepNone(NotFor(kind, latest));
    KeepNone(IsFor(kind, latest));
    if Branch(job, kind) != "" {
      CopyBranch(job, kind, latest);
      KeepOne(Copy(job, latest), NotFor(kind, latest));
      KeepOne(Copy(job, latest), IsFor(kind, latest));
      KeepConcat([job], [Copy(job, latest)], NotFor(kind, latest));
      KeepConcat([job], [Copy(job, latest)], IsFor(kind, latest));
      assert [job, Copy(job, latest)] == [job] + [Copy(job, latest)];
    }
  }

  lemma KeepNone(p: Job -> bool)
    ensures Keep([], p) == []
  {
  }

  /** What an update is, besides its copies: the jobs of other kinds and those new enough, in their
      old order; and its copies are those of the newest jobs, in their order. */
  lemma {:induction false} UpdateKeepsOrder(jobs: seq<Job>, kind: Kind, sorted: seq<string>, latest: string)
    requires sorted != [] && sorted[0] != "" && latest != "" && latest !in Branches(jobs, kind)
    ensures Keep(UpdatedJobs(jobs, kind, sorted, latest), NotFor(kind, latest)) == Keep(jobs, StaysIn(kind, sorted))
    ensures Keep(UpdatedJobs(jobs, kind, sorted, latest), IsFor(kind, latest))
         == Copies(Keep(jobs, NewestStays(kind, sorted)), latest)
  {
    hide Emit, Branch, Copy, NotFor, IsFor, StaysIn, NewestStays, Keep, Branches;
    if jobs == [] {
      KeepNone(NotFor(kind, latest));
      KeepNone(IsFor(kind, latest));
      KeepNone(StaysIn(kind, sorted));
      KeepNone(NewestStays(kind, sorted));
    } else {
      var before, job := jobs[..|jobs|-1], jobs[|jobs|-1];
      var emitted := Emit(job, kind, sorted, latest);
      assert jobs == before + [job];
      LastBranch(jobs, kind);
      UpdateKeepsOrder(before, kind, sorted, latest);
      EmitSplit(job, kind, sorted, latest);
      KeepConcat(UpdatedJobs(before, kind, sorted, latest), emitted, NotFor(kind, latest));
      KeepConcat(UpdatedJobs(before, kind, sorted, latest), emitted, IsFor(kind, latest));
      KeepConcat(before, [job], StaysIn(kind, sorted));
      KeepConcat(before, [job], NewestStays(kind, sorted));
      var a, b := Keep(before, NewestStays(kind, sorted)), Keep([job], NewestStays(kind, sorted));
      assert Copies(a + b, latest) == Copies(a, latest) + Copies(b, latest);
    }
  }

  lemma LastBranch(jobs: seq<Job>, kind: Kind)
    requires jobs != []
    ensures Branch(jobs[|jobs|-1], kind) == "" || Branch(jobs[|jobs|-1], kind) in Branches(jobs, kind)
    ensures forall b :: b in Branches(jobs[..|jobs|-1], kind) ==> b in Branches(jobs, kind)
  {
    hide Branch;
  }
}
