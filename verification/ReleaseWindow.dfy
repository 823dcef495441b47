/**
 Which jobs a rewrite of release branches keeps and copies (tools/config-generator/udpaterelease.go),
 said in terms of the branches alone: without sorting them and without a window.
 */
module ReleaseWindow {
  import opened Text
  import opened ReleaseBranches

  /** `v` is a higher version than `w`. */
  predicate Newer(v: Version, w: Version)
  {
    v.major > w.major || (v.major == w.major && v.minor > w.minor)
  }

  /** How many of the branches, repetitions counted, are newer than `v`. */
  function NewerCount(branches: seq<string>, v: Version): nat
  {
    if branches == [] then 0
    else NewerCount(branches[..|branches|-1], v) + if Newer(Ver(branches[|branches|-1]), v) then 1 else 0
  }

  /** What `getString` reads: a string, or a list of one. */
  predicate Reads(v: Value, s: string)
  {
    v == Str(s) || v == Strs([s])
  }

  /** The item at `i` is the last one with that key. */
  predicate LastOf(job: Job, key: string, i: nat)
  {
    i < |job| && job[i].key == key && forall k :: i < k < |job| ==> job[k].key != key
  }

  lemma {:induction false} ReleaseIff(job: Job, b: string)
    ensures Release(job).Some? <==>
            forall i :: 0 <= i < |job| && job[i].key == "release" ==> exists s :: Reads(job[i].value, s)
    ensures Release(job).Some? && b != "" ==>
              (Release(job).value == b <==> exists i: nat :: LastOf(job, "release", i) && Reads(job[i].value, b))
  {
    if job != [] {
      var front, last := job[..|job|-1], job[|job|-1];
      ReleaseIff(front, b);
      GetStringIs(last.value);
      if last.key == "release" {
        assert LastOf(job, "release", |job| - 1);
      } else {
        forall i: nat ensures LastOf(job, "release", i) <==> LastOf(front, "release", i) {
          assert i < |front| ==> front[i] == job[i];
        }
      }
    }
  }

  lemma GetStringIs(v: Value)
    ensures GetString(v).Some? <==> exists s :: Reads(v, s)
    ensures forall s :: Reads(v, s) <==> GetString(v) == Some(s)
  {
    if v.Strs? && |v.ss| == 1 { assert v.ss == [v.ss[0]]; }
    if GetString(v).Some? { assert Reads(v, GetString(v).value); }
  }

  predicate Marked(job: Job, key: string)
  {
    exists i :: 0 <= i < |job| && job[i].key == key
  }

  /** Which branch a job is for, in terms of its items: the last `release` decides, and a job with both
      marks is a continuous one. */
  lemma BranchIff(job: Job, kind: Kind, b: string)
    requires b != ""
    ensures Branch(job, kind) == b <==>
            && (forall i :: 0 <= i < |job| && job[i].key == "release" ==> exists s :: Reads(job[i].value, s))
            && (exists i: nat :: LastOf(job, "release", i) && Reads(job[i].value, b))
            && (if kind == Ci then Marked(job, "branch-ci")
                else Marked(job, "dot-release") && !Marked(job, "branch-ci"))
  {
    hide Release, Reads, LastOf;
    ReleaseIff(job, b);
    KindIff(job);
  }

  lemma KindIff(job: Job)
    ensures KindOf(job) == Some(Ci) <==> Marked(job, "branch-ci")
    ensures KindOf(job) == Some(Dot) <==> Marked(job, "dot-release") && !Marked(job, "branch-ci")
  {
  }

  /** A branch is named by its version. */
  lemma VersionRead(major: nat, minor: nat)
    requires major <= MAX_INT64 && minor <= MAX_INT64
    ensures ParseVersion(Decimal(major) + "." + Decimal(minor)) == Some(Version(major, minor))
  {
    hide Split, Atoi, Decimal;
    DecimalFree(major, '.');
    DecimalFree(minor, '.');
    SplitAppend(Decimal(major), '.', Decimal(minor));
    SplitFree(Decimal(major), '.');
    SplitFree(Decimal(minor), '.');
    AtoiDecimal(major);
    AtoiDecimal(minor);
  }

  lemma CompIff(v: Version, w: Version)
    ensures Comp(v, w) > 0 <==> Newer(v, w)
    ensures Comp(v, w) < 0 <==> Newer(w, v)
  {
  }

  lemma {:induction false} CountConcat(a: seq<string>, b: seq<string>, v: Version)
    ensures NewerCount(a + b, v) == NewerCount(a, v) + NewerCount(b, v)
  {
    hide Ver;
    if b == [] {
      assert a + b == a;
    } else {
      assert (a + b)[..|a + b|-1] == a + b[..|b|-1];
      CountConcat(a, b[..|b|-1], v);
    }
  }

  lemma CountOne(b: string, v: Version)
    ensures NewerCount([b], v) == if Newer(Ver(b), v) then 1 else 0
  {
    hide Ver;
    assert [b][..0] == [];
  }

  lemma CountWithout(b: seq<string>, k: nat, v: Version)
    requires k < |b|
    ensures var rest := b[..k] + b[k + 1..];
      && multiset(rest) == multiset(b) - multiset{b[k]}
      && NewerCount(b, v) == NewerCount([b[k]], v) + NewerCount(rest, v)
  {
    hide Ver, NewerCount;
    assert b == b[..k] + [b[k]] + b[k + 1..];
    CountConcat(b[..k], b[k + 1..], v);
    CountConcat(b[..k] + [b[k]], b[k + 1..], v);
    CountConcat(b[..k], [b[k]], v);
  }

  /** The count does not depend on the order. */
  lemma {:induction false} CountPermutation(a: seq<string>, b: seq<string>, v: Version)
    requires multiset(a) == multiset(b)
    ensures NewerCount(a, v) == NewerCount(b, v)
  {
    hide Ver, NewerCount;
    if a == [] {
      assert |multiset(b)| == 0;
    } else {
      assert a[0] in multiset(b);
      var k :| 0 <= k < |b| && b[k] == a[0];
      CountWithout(a, 0, v);
      CountWithout(b, k, v);
      CountPermutation(a[..0] + a[1..], b[..k] + b[k + 1..], v);
    }
  }

  lemma {:induction false} CountBound(s: seq<string>, v: Version)
    ensures NewerCount(s, v) <= |s|
    ensures NewerCount(s, v) == |s| <==> forall i :: 0 <= i < |s| ==> Newer(Ver(s[i]), v)
    ensures NewerCount(s, v) == 0 <==> forall i :: 0 <= i < |s| ==> !Newer(Ver(s[i]), v)
  {
    hide Ver;
    if s != [] { CountBound(s[..|s|-1], v); }
  }

  /** In a descending list the third entry is the border. */
  lemma ThirdIsBorder(sorted: seq<string>, v: Version)
    requires Descending(sorted) && |sorted| >= 3
    ensures NewerCount(sorted, v) < 3 <==> Comp(v, Ver(sorted[2])) >= 0
  {
    hide Ver;
    var top, rest := sorted[..3], sorted[3..];
    assert sorted == top + rest;
    CountConcat(top, rest, v);
    CountBound(top, v);
    CountBound(rest, v);
    CompIff(v, Ver(sorted[2]));
    assert top[2] == sorted[2];
    forall i | 0 <= i < 2 ensures Comp(Ver(top[i]), Ver(sorted[2])) >= 0 {
      assert top[i] == sorted[i];
    }
    forall i | 0 <= i < |rest| ensures Comp(Ver(sorted[2]), Ver(rest[i])) >= 0 {
      assert rest[i] == sorted[3 + i];
    }
  }

  lemma SortedThird(branches: seq<string>, sorted: seq<string>, b: string)
    requires Sorting(branches, sorted)
    ensures |sorted| == |branches|
    ensures Comp(Ver(b), Ver(Oldest(sorted))) >= 0 <==>
            if |branches| >= 3 then NewerCount(branches, Ver(b)) < 3 else !Newer(Version(0, 0), Ver(b))
  {
    hide Ver;
    SortingLength(branches, sorted);
    if |branches| >= 3 {
      CountPermutation(branches, sorted, Ver(b));
      ThirdIsBorder(sorted, Ver(b));
    } else {
      ZeroVersion();
      CompIff(Ver(b), Version(0, 0));
    }
  }

  lemma ZeroVersion()
    ensures Ver("0.0") == Version(0, 0)
  {
    hide Split, Atoi;
    assert Decimal(0) == "0";
    VersionRead(0, 0);
    assert Decimal(0) + "." + Decimal(0) == "0.0";
  }

  lemma {:induction false} InUpdateIff(jobs: seq<Job>, kind: Kind, sorted: seq<string>, latest: string, job: Job)
    requires sorted != []
    ensures job in UpdatedJobs(jobs, kind, sorted, latest) <==>
            exists k :: 0 <= k < |jobs| && job in Emit(jobs[k], kind, sorted, latest)
  {
    hide Emit;
    if jobs != [] {
      var before := jobs[..|jobs|-1];
      InUpdateIff(before, kind, sorted, latest, job);
      if k :| 0 <= k < |before| && job in Emit(before[k], kind, sorted, latest) {
        assert job in Emit(jobs[k], kind, sorted, latest);
      }
      if k :| 0 <= k < |jobs| && job in Emit(jobs[k], kind, sorted, latest) {
        assert k < |before| ==> job in Emit(before[k], kind, sorted, latest);
      }
    }
  }

  /** Only its own entry can leave a job of an older branch. */
  lemma EmitsItself(j: Job, kind: Kind, sorted: seq<string>, latest: string, job: Job)
    requires sorted != [] && Branch(job, kind) != "" && Branch(job, kind) != latest
    ensures job in Emit(j, kind, sorted, latest) <==> j == job && Comp(Ver(Branch(job, kind)), Ver(Oldest(sorted))) >= 0
  {
    hide Ver, Branch, Oldest, Copy;
    if Branch(j, kind) != "" { CopyBranch(j, kind, latest); }
  }

  /** The window: where there are three branches of the kind or more, a job of that kind stays exactly if
      fewer than three of them, repetitions counted, are newer than its own; where there are fewer, it
      stays unless its version is below 0.0. */
  lemma StaysIff(jobs: seq<Job>, kind: Kind, latest: string, after: seq<Job>, job: Job)
    requires latest != "" && NeedsUpdate(jobs, kind, latest) && Pass(jobs, kind, latest, after)
    requires job in jobs && Branch(job, kind) != ""
    ensures var branches, v := Branches(jobs, kind), Ver(Branch(job, kind));
      job in after <==> if |branches| >= 3 then NewerCount(branches, v) < 3 else !Newer(Version(0, 0), v)
  {
    hide Branches, UpdatedJobs, Ver, Branch, Emit, Oldest, Sorting;
    var branches := Branches(jobs, kind);
    var sorted :| Sorting(branches, sorted) && sorted != [] && after == UpdatedJobs(jobs, kind, sorted, latest);
    var i :| 0 <= i < |jobs| && jobs[i] == job;
    BranchesOf(jobs, kind, i);
    SortedThird(branches, sorted, Branch(job, kind));
    InUpdateIff(jobs, kind, sorted, latest, job);
    EmitsItself(jobs[i], kind, sorted, latest, job);
    forall k | 0 <= k < |jobs|
      ensures job in Emit(jobs[k], kind, sorted, latest) ==> Comp(Ver(Branch(job, kind)), Ver(Oldest(sorted))) >= 0
    {
      EmitsItself(jobs[k], kind, sorted, latest, job);
    }
  }

  /** Jobs that are not of the kind all stay. */
  lemma OthersStay(jobs: seq<Job>, kind: Kind, latest: string, after: seq<Job>, job: Job)
    requires Pass(jobs, kind, latest, after) && job in jobs && Branch(job, kind) == ""
    ensures job in after
  {
    hide Branches, UpdatedJobs, Ver, Branch, Emit, Oldest, Sorting;
    if sorted :|
      Sorting(Branches(jobs, kind), sorted) && sorted != [] && after == UpdatedJobs(jobs, kind, sorted, latest) {
      var i :| 0 <= i < |jobs| && jobs[i] == job;
      InUpdateIff(jobs, kind, sorted, latest, job);
      EmitsOther(job, kind, sorted, latest);
    }
  }

  lemma EmitsOther(job: Job, kind: Kind, sorted: seq<string>, latest: string)
    requires sorted != [] && Branch(job, kind) == ""
    ensures Emit(job, kind, sorted, latest) == [job]
  {
    hide Ver, Branch, Oldest, Copy;
  }

  /** What is new in the list: each job for the newest branch is a copy of a job than whose branch none is
      newer. */
  lemma CopiesAreOfNewest(jobs: seq<Job>, kind: Kind, latest: string, after: seq<Job>, job: Job)
    requires latest != "" && NeedsUpdate(jobs, kind, latest) && Pass(jobs, kind, latest, after)
    requires job in after && Branch(job, kind) == latest
    ensures exists i :: 0 <= i < |jobs| && job == Copy(jobs[i], latest) && Branch(jobs[i], kind) != ""
                        && NewerCount(Branches(jobs, kind), Ver(Branch(jobs[i], kind))) == 0
  {
    hide Branches, UpdatedJobs, Ver, Branch, Emit, Oldest, Sorting, Copy;
    var branches := Branches(jobs, kind);
    var sorted :| Sorting(branches, sorted) && sorted != [] && after == UpdatedJobs(jobs, kind, sorted, latest);
    InUpdateIff(jobs, kind, sorted, latest, job);
    var k :| 0 <= k < |jobs| && job in Emit(jobs[k], kind, sorted, latest);
    CopyComes(jobs, k, kind, sorted, latest, job);
    NoneNewer(branches, sorted);
  }

  lemma CopyComes(jobs: seq<Job>, k: nat, kind: Kind, sorted: seq<string>, latest: string, job: Job)
    requires sorted != [] && k < |jobs| && latest != "" && latest !in Branches(jobs, kind)
    requires job in Emit(jobs[k], kind, sorted, latest) && Branch(job, kind) == latest
    ensures job == Copy(jobs[k], latest) && Branch(jobs[k], kind) == sorted[0] && sorted[0] != ""
  {
    hide Branches, Ver, Branch, Oldest, Copy;
    if Branch(jobs[k], kind) != "" { BranchesOf(jobs, kind, k); }
  }

  lemma NoneNewer(branches: seq<string>, sorted: seq<string>)
    requires Sorting(branches, sorted) && sorted != []
    ensures NewerCount(branches, Ver(sorted[0])) == 0
  {
    hide Ver;
    CountPermutation(branches, sorted, Ver(sorted[0]));
    CountBound(sorted, Ver(sorted[0]));
    forall i | 0 <= i < |sorted| ensures !Newer(Ver(sorted[i]), Ver(sorted[0])) {
      CompIff(Ver(sorted[0]), Ver(sorted[i]));
    }
  }

  /** Where one branch is newer than all others, and not below 0.0, every job for it is copied. */
  lemma NewestIsCopied(jobs: seq<Job>, kind: Kind, latest: string, after: seq<Job>, i: nat)
    requires latest != "" && NeedsUpdate(jobs, kind, latest) && Pass(jobs, kind, latest, after)
    requires i < |jobs| && Branch(jobs[i], kind) != ""
    requires forall b :: b in Branches(jobs, kind) && b != Branch(jobs[i], kind) ==>
                           Newer(Ver(Branch(jobs[i], kind)), Ver(b))
    requires !Newer(Version(0, 0), Ver(Branch(jobs[i], kind)))
    ensures Copy(jobs[i], latest) in after
  {
    hide Branches, UpdatedJobs, Ver, Branch, Emit, Oldest, Sorting, Copy;
    var branches, b := Branches(jobs, kind), Branch(jobs[i], kind);
    var sorted :| Sorting(branches, sorted) && sorted != [] && after == UpdatedJobs(jobs, kind, sorted, latest);
    BranchesOf(jobs, kind, i);
    FirstIs(branches, sorted, b);
    NoneNewer(branches, sorted);
    SortedThird(branches, sorted, b);
    InUpdateIff(jobs, kind, sorted, latest, Copy(jobs[i], latest));
    EmitsCopy(jobs[i], kind, sorted, latest);
  }

  lemma EmitsCopy(job: Job, kind: Kind, sorted: seq<string>, latest: string)
    requires sorted != [] && Branch(job, kind) == sorted[0] != ""
    requires Comp(Ver(sorted[0]), Ver(Oldest(sorted))) >= 0
    ensures Copy(job, latest) in Emit(job, kind, sorted, latest)
  {
    hide Ver, Branch, Oldest, Copy;
  }

  lemma FirstIs(branches: seq<string>, sorted: seq<string>, b: string)
    requires Sorting(branches, sorted) && sorted != [] && b in branches
    requires forall c :: c in branches && c != b ==> Newer(Ver(b), Ver(c))
    ensures sorted[0] == b
  {
    hide Ver;
    assert b in multiset(branches) && sorted[0] in multiset(sorted);
    var k :| 0 <= k < |sorted| && sorted[k] == b;
    CompIff(Ver(sorted[0]), Ver(b));
    assert sorted[0] in branches;
  }
}
