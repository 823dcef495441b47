/**
 Choosing a ref for a release and naming the next release (pkg/git/git.go,
 pkg/gomod/release_meta.go).
 */
module GitRef {
  import opened Text
  import opened SemVer

  const RELEASE := "release-"

  datatype Repo = Repo(ref: string, defaultBranch: string, tags: seq<string>, branches: seq<string>)

  datatype RefType = BranchRef | DefaultBranchRef | ReleaseBranchRef | ReleaseRef | NoRef | UndefinedRef

  datatype Ruleset = AnyRule | ReleaseOrReleaseBranchRule | ReleaseRule | ReleaseBranchRule | InvalidRule

  function ReleaseVersion(v: Version): string
  {
    "v" + Print(v.major, v.minor, v.patch)
  }

  function ReleaseBranchVersion(v: Version): string
  {
    RELEASE + Decimal(v.major) + "." + Decimal(v.minor)
  }

  /** `normalizeTagVersion`. */
  function NormalizeTag(t: string): (string, bool)
  {
    if t != "" && t[0] == 'v' then (t[1..], true) else (t, false)
  }

  /** `normalizeBranchVersion`. */
  function NormalizeBranch(b: string): (string, bool)
  {
    if RELEASE <= b then (b[|RELEASE|..] + ".0", true) else (b, false)
  }

  predicate SameLine(v: Version, o: Version)
  {
    v.major == o.major && v.minor == o.minor
  }

  /** The version a tag stands for in the search for a release of the line of `this`. */
  function TagVersion(t: string, line: Version): Option<Version>
  {
    var (sv, ok) := NormalizeTag(t);
    if ok && IsPlain(Make(sv)) && SameLine(Make(sv), line) then Some(Make(sv)) else None
  }

  function BranchVersion(b: string, line: Version): Option<Version>
  {
    var (bv, ok) := NormalizeBranch(b);
    if ok && SameLine(Make(bv), line) then Some(Make(bv)) else None
  }

  /** The first of the greatest versions. */
  function Largest(names: seq<string>, version: string -> Option<Version>): (r: Option<Version>)
    ensures r.Some? ==> exists n :: n in names && version(n) == r
    ensures r.None? ==> forall n :: n in names ==> version(n).None?
  {
    if names == [] then None
    else
      var front, v := Largest(names[..|names|-1], version), version(names[|names|-1]);
      assert names == names[..|names|-1] + [names[|names|-1]];
      if v.Some? && (front.None? || Lower(front.value, v.value)) then v else front
  }

  function LargestTag(repo: Repo, line: Version): Option<Version>
  {
    Largest(repo.tags, t => TagVersion(t, line))
  }

  function LargestBranch(repo: Repo, line: Version): Option<Version>
  {
    Largest(repo.branches, b => BranchVersion(b, line))
  }

  function BestRef(repo: Repo, line: Version, ruleset: Ruleset): (string, RefType)
  {
    var tag, branch := LargestTag(repo, line), LargestBranch(repo, line);
    if (ruleset.AnyRule? || ruleset.ReleaseOrReleaseBranchRule? || ruleset.ReleaseRule?) && tag.Some?
    then (repo.ref + "@" + ReleaseVersion(tag.value), ReleaseRef)
    else if (ruleset.AnyRule? || ruleset.ReleaseOrReleaseBranchRule? || ruleset.ReleaseBranchRule?) && branch.Some?
    then (repo.ref + "@" + ReleaseBranchVersion(branch.value), ReleaseBranchRef)
    else if ruleset.AnyRule? then (repo.ref + "@" + repo.defaultBranch, DefaultBranchRef)
    else (repo.ref, NoRef)
  }

  /** The loop over tags. */
  method LargestOfTags(repo: Repo, line: Version) returns (largest: Option<Version>)
    ensures largest == LargestTag(repo, line)
  {
    hide Make, IsPlain, Lower;
    largest := None;
    ghost var version := t => TagVersion(t, line);
    for i := 0 to |repo.tags|
      invariant largest == Largest(repo.tags[..i], version)
    {
      assert repo.tags[..i + 1][..i] == repo.tags[..i];
      var (sv, ok) := NormalizeTag(repo.tags[i]);
      if ok {
        var v := Make(sv);
        if !IsPlain(v) {
          continue;
        }
        if v.major == line.major && v.minor == line.minor {
          if largest.None? || Lower(largest.value, v) {
            largest := Some(v);
          }
        }
      }
    }
    assert repo.tags[..|repo.tags|] == repo.tags;
  }

  /** The loop over branches. */
  method LargestOfBranches(repo: Repo, line: Version) returns (largest: Option<Version>)
    ensures largest == LargestBranch(repo, line)
  {
    hide Make, Lower, NormalizeBranch;
    largest := None;
    ghost var version := b => BranchVersion(b, line);
    for i := 0 to |repo.branches|
      invariant largest == Largest(repo.branches[..i], version)
    {
      assert repo.branches[..i + 1][..i] == repo.branches[..i];
      var (bv, ok) := NormalizeBranch(repo.branches[i]);
      if ok {
        var v := Make(bv);
        if v.major == line.major && v.minor == line.minor {
          if largest.None? || Lower(largest.value, v) {
            largest := Some(v);
          }
        }
      }
    }
    assert repo.branches[..|repo.branches|] == repo.branches;
  }

  method BestRefFor(repo: Repo, line: Version, ruleset: Ruleset) returns (ref: string, refType: RefType)
    ensures (ref, refType) == BestRef(repo, line, ruleset)
  {
    if ruleset.AnyRule? || ruleset.ReleaseOrReleaseBranchRule? || ruleset.ReleaseRule? {
      var largest := LargestOfTags(repo, line);
      if largest.Some? {
        return repo.ref + "@" + ReleaseVersion(largest.value), ReleaseRef;
      }
    }
    if ruleset.AnyRule? || ruleset.ReleaseOrReleaseBranchRule? || ruleset.ReleaseBranchRule? {
      var largest := LargestOfBranches(repo, line);
      if largest.Some? {
        return repo.ref + "@" + ReleaseBranchVersion(largest.value), ReleaseBranchRef;
      }
    }
    if ruleset.AnyRule? {
      return repo.ref + "@" + repo.defaultBranch, DefaultBranchRef;
    }
    return repo.ref, NoRef;
  }

  function ParseRef(ref: string): (string, string, RefType)
  {
    var parts := Split(ref, "@");
    if |parts| != 2 then (ref, "", UndefinedRef)
    else if NormalizeTag(parts[1]).1 then (parts[0], parts[1], ReleaseRef)
    else if NormalizeBranch(parts[1]).1 then (parts[0], parts[1], ReleaseBranchRef)
    else (parts[0], parts[1], BranchRef)
  }

  datatype ReleaseMeta = ReleaseMeta(branchExists: bool, branch: string, release: string)

  /** `rv.Patch++` on an unsigned 64-bit number. */
  function BumpPatch(v: Version): Version
  {
    v.(patch := (v.patch + 1) % (MAX_UINT64 + 1))
  }

  function Tolerant(s: string): Version
  {
    match ParseTolerant(s)
    case Some(v) => v
    case None => ZERO
  }

  /** The tag `ReleaseStatus` proposes. */
  function NextRelease(repo: Repo, line: Version): string
  {
    var (ref, refType) := BestRef(repo, line, ReleaseRule);
    if refType == ReleaseRef then ReleaseVersion(BumpPatch(Tolerant(ParseRef(ref).1))) else ReleaseVersion(line)
  }

  function ReleaseBranch(repo: Repo, line: Version): (string, bool)
  {
    var (ref, refType) := BestRef(repo, line, ReleaseBranchRule);
    if refType == ReleaseBranchRef then (ParseRef(ref).1, true) else (ReleaseBranchVersion(line), false)
  }

  /** `ReleaseStatus` once the module is known and its repository listed. */
  method ReleaseStatus(repo: Repo, release: string) returns (next: Option<ReleaseMeta>)
    ensures match ParseTolerant(release)
      case None => next == None
      case Some(v) =>
        next == Some(ReleaseMeta(ReleaseBranch(repo, v).1, ReleaseBranch(repo, v).0, NextRelease(repo, v)))
  {
    hide ParseTolerant, BestRef, ReleaseVersion, ReleaseBranchVersion, ParseRef, BumpPatch;
    var parsed := ParseTolerant(release);
    if parsed.None? {
      return None;
    }
    var version := parsed.value;
    var found, branch, tag := false, "", "";
    var ref, refType := BestRefFor(repo, version, ReleaseBranchRule);
    if refType == ReleaseBranchRef {
      branch, found := ParseRef(ref).1, true;
    } else {
      branch, found := ReleaseBranchVersion(version), false;
    }
    ref, refType := BestRefFor(repo, version, ReleaseRule);
    if refType == ReleaseRef {
      var rv := Tolerant(ParseRef(ref).1);
      rv := BumpPatch(rv);
      tag := ReleaseVersion(rv);
    } else {
      tag := ReleaseVersion(version);
    }
    next := Some(ReleaseMeta(found, branch, tag));
  }

  // ----- The release picked --------------------------------------------------------------

  /** Plain release tags of one line. */
  ghost predicate HasTag(repo: Repo, major: nat, minor: nat, patch: nat)
  {
    patch <= MAX_UINT64 && ReleaseVersion(Plain(major, minor, patch)) in repo.tags
  }

  /** A tag outside line 0.0 stands for a version exactly if it is that version printed. */
  lemma TagIff(t: string, line: Version, patch: nat)
    requires (line.major, line.minor) != (0, 0) || patch > 0
    ensures TagVersion(t, line) == Some(Plain(line.major, line.minor, patch))
       <==> t == ReleaseVersion(Plain(line.major, line.minor, patch)) && InRange(Plain(line.major, line.minor, patch))
  {
    hide Parse, Print;
    var (sv, ok) := NormalizeTag(t);
    var p := Print(line.major, line.minor, patch);
    PlainIff(sv, line.major, line.minor, patch);
    assert ("v" + p)[1..] == p;
    if ok { assert t == "v" + sv; }
  }

  /** On every line the printed versions are found. */
  lemma TagFound(major: nat, minor: nat, patch: nat, line: Version)
    requires InRange(Plain(major, minor, patch)) && SameLine(line, Plain(major, minor, patch))
    ensures TagVersion(ReleaseVersion(Plain(major, minor, patch)), line) == Some(Plain(major, minor, patch))
  {
    hide Parse, Print;
    var p := Print(major, minor, patch);
    ParsePrinted(major, minor, patch);
    assert ("v" + p)[1..] == p;
  }

  lemma TagVersionIs(t: string, line: Version)
    ensures var v := TagVersion(t, line);
      v.Some? ==> InRange(v.value) && v.value == Plain(line.major, line.minor, v.value.patch)
  {
    hide Parse;
    ParsedInRange(NormalizeTag(t).0);
  }

  lemma {:induction false} LargestIsMax(names: seq<string>, version: string -> Option<Version>, line: Version)
    requires forall t :: version(t).Some? ==> version(t).value == Plain(line.major, line.minor, version(t).value.patch)
    ensures var r := Largest(names, version);
      forall n :: n in names && version(n).Some? ==> r.Some? && version(n).value.patch <= r.value.patch
  {
    if names != [] {
      LargestIsMax(names[..|names|-1], version, line);
      assert names == names[..|names|-1] + [names[|names|-1]];
    }
  }

  /** Every plain release tag of the line is at most the version picked. */
  lemma PickedIsMax(repo: Repo, line: Version, patch: nat)
    requires InRange(line) && HasTag(repo, line.major, line.minor, patch)
    ensures LargestTag(repo, line).Some? && patch <= LargestTag(repo, line).value.patch
  {
    hide TagVersion, ReleaseVersion, Largest;
    var version := t => TagVersion(t, line);
    forall t ensures version(t).Some? ==> version(t).value == Plain(line.major, line.minor, version(t).value.patch) {
      TagVersionIs(t, line);
    }
    LargestIsMax(repo.tags, version, line);
    TagFound(line.major, line.minor, patch, line);
    assert version(ReleaseVersion(Plain(line.major, line.minor, patch))).Some?;
  }

  lemma PickedIs(repo: Repo, line: Version)
    requires LargestTag(repo, line).Some?
    ensures var v := LargestTag(repo, line).value;
      InRange(v) && v == Plain(line.major, line.minor, v.patch)
      && exists t :: t in repo.tags && TagVersion(t, line) == Some(v)
  {
    hide TagVersion, Largest;
    var version := t => TagVersion(t, line);
    var t :| t in repo.tags && version(t) == LargestTag(repo, line);
    TagVersionIs(t, line);
  }

  /** The tag picked is one of the repository's and the greatest of its line; only on line 0.0, where
      tags that cannot be parsed count as 0.0.0, this needs some plain tag to exist. */
  lemma PickedTagIsRealIff(repo: Repo, line: Version)
    requires InRange(line) && LargestTag(repo, line).Some?
    ensures var v := LargestTag(repo, line).value;
      && (forall p: nat :: HasTag(repo, line.major, line.minor, p) ==> p <= v.patch)
      && (ReleaseVersion(v) in repo.tags
          <==> (line.major, line.minor) != (0, 0) || exists p: nat :: HasTag(repo, line.major, line.minor, p))
  {
    hide LargestTag, TagVersion, ReleaseVersion;
    var v := LargestTag(repo, line).value;
    PickedIs(repo, line);
    forall p: nat | HasTag(repo, line.major, line.minor, p) ensures p <= v.patch {
      PickedIsMax(repo, line, p);
    }
    var t :| t in repo.tags && TagVersion(t, line) == Some(v);
    if (line.major, line.minor) != (0, 0) || v.patch > 0 {
      TagIff(t, line, v.patch);
      assert HasTag(repo, line.major, line.minor, v.patch);
    } else if p: nat :| HasTag(repo, line.major, line.minor, p) {
      PickedIsMax(repo, line, p);
      assert p == 0;
    } else if ReleaseVersion(v) in repo.tags {
      assert HasTag(repo, line.major, line.minor, v.patch);
    }
  }

  // ----- The next release ----------------------------------------------------------------

  lemma NumbersFree(v: Version)
    ensures Free(Print(v.major, v.minor, v.patch), '@')
  {
    DecimalFree(v.major, '@');
    DecimalFree(v.minor, '@');
    DecimalFree(v.patch, '@');
  }

  lemma RefSplits(ref: string, name: string)
    requires Free(ref, '@') && Free(name, '@')
    ensures Split(ref + "@" + name, "@") == [ref, name]
  {
    hide Split;
    SplitAppend(ref, '@', name);
    SplitFree(ref, '@');
    SplitFree(name, '@');
  }

  lemma ParseRefOfRelease(ref: string, v: Version)
    requires Free(ref, '@')
    ensures ParseRef(ref + "@" + ReleaseVersion(v)) == (ref, ReleaseVersion(v), ReleaseRef)
  {
    hide Split, Print;
    NumbersFree(v);
    RefSplits(ref, ReleaseVersion(v));
  }

  /** The ref chosen survives printing and parsing twice. */
  lemma NextReleaseIs(repo: Repo, line: Version)
    requires Free(repo.ref, '@')
    ensures NextRelease(repo, line) ==
            match LargestTag(repo, line)
            case None => ReleaseVersion(line)
            case Some(v) => ReleaseVersion(BumpPatch(v))
  {
    hide LargestTag, LargestBranch, ParseRef, Print, Parse, ParseTolerant;
    if LargestTag(repo, line).Some? {
      var v := LargestTag(repo, line).value;
      PickedIs(repo, line);
      ParseRefOfRelease(repo.ref, v);
      TolerantPrinted(v.major, v.minor, v.patch);
      ParsePrinted(v.major, v.minor, v.patch);
    }
  }

  /** The greatest patch number there is was released: its successor is 0. */
  ghost predicate Wraps(repo: Repo, line: Version)
  {
    HasTag(repo, line.major, line.minor, MAX_UINT64)
  }

  /** Then, and only then, the release picked is that one. */
  lemma WrapsIff(repo: Repo, line: Version)
    requires InRange(line)
    ensures Wraps(repo, line)
       <==> LargestTag(repo, line).Some? && LargestTag(repo, line).value.patch == MAX_UINT64
  {
    hide LargestTag, TagVersion, ReleaseVersion;
    if Wraps(repo, line) {
      PickedIsMax(repo, line, MAX_UINT64);
      PickedIs(repo, line);
    }
    if LargestTag(repo, line).Some? && LargestTag(repo, line).value.patch == MAX_UINT64 {
      PickedIs(repo, line);
      var v := LargestTag(repo, line).value;
      var t :| t in repo.tags && TagVersion(t, line) == Some(v);
      TagIff(t, line, v.patch);
    }
  }

  lemma BumpIs(v: Version)
    requires InRange(v)
    ensures BumpPatch(v) == v.(patch := if v.patch == MAX_UINT64 then 0 else v.patch + 1)
    ensures InRange(BumpPatch(v))
  {
  }

  /** The version proposed is not taken yet, except where the patch number wraps around to one that
      is. */
  lemma NextReleaseIsNewIff(repo: Repo, line: Version)
    requires InRange(line) && Free(repo.ref, '@')
    ensures NextRelease(repo, line) !in repo.tags <==> !(Wraps(repo, line) && HasTag(repo, line.major, line.minor, 0))
  {
    hide NextRelease, LargestTag, ReleaseVersion, BumpPatch;
    NextReleaseIs(repo, line);
    WrapsIff(repo, line);
    match LargestTag(repo, line)
    case None =>
      ReleaseIgnoresSuffix(line);
      if HasTag(repo, line.major, line.minor, line.patch) {
        PickedIsMax(repo, line, line.patch);
      }
    case Some(v) =>
      PickedIs(repo, line);
      BumpIs(v);
      var n := BumpPatch(v);
      if HasTag(repo, line.major, line.minor, n.patch) {
        PickedIsMax(repo, line, n.patch);
      }
  }

  lemma ReleaseIgnoresSuffix(v: Version)
    ensures ReleaseVersion(v) == ReleaseVersion(Plain(v.major, v.minor, v.patch))
  {
  }

  /** Where the line has a release, the version proposed takes precedence over every plain tag of the
      line exactly if the patch number does not wrap around. */
  lemma NextReleaseIsHigherIff(repo: Repo, line: Version)
    requires InRange(line) && Free(repo.ref, '@') && LargestTag(repo, line).Some?
    ensures var n := BumpPatch(LargestTag(repo, line).value);
      && NextRelease(repo, line) == ReleaseVersion(n) && SameLine(n, line)
      && ((forall p: nat :: HasTag(repo, line.major, line.minor, p) ==> Lower(Plain(line.major, line.minor, p), n))
          <==> !Wraps(repo, line))
  {
    hide NextRelease, LargestTag, ReleaseVersion, BumpPatch, HasTag;
    NextReleaseIs(repo, line);
    PickedIs(repo, line);
    var v := LargestTag(repo, line).value;
    BumpIs(v);
    forall p: nat | HasTag(repo, line.major, line.minor, p) ensures p <= v.patch {
      HasTagInRange(repo, line, p);
      PickedIsMax(repo, line, p);
    }
    WrapsIff(repo, line);
  }

  lemma HasTagInRange(repo: Repo, line: Version, p: nat)
    requires HasTag(repo, line.major, line.minor, p)
    ensures p <= MAX_UINT64
  {
  }

  // ----- The release branch --------------------------------------------------------------

  /** A branch whose name is that of a release line. */
  ghost predicate PlainBranch(b: string)
  {
    exists v: Version :: InRange(v) && b == ReleaseBranchVersion(v)
  }

  lemma BranchIff(b: string, line: Version)
    requires PlainBranch(b) && InRange(line)
    ensures BranchVersion(b, line).Some? <==> b == ReleaseBranchVersion(line)
  {
    hide Parse, Decimal;
    var v: Version :| InRange(v) && b == ReleaseBranchVersion(v);
    var p := Decimal(v.major) + "." + Decimal(v.minor);
    assert b == RELEASE + p && b[|RELEASE|..] == p;
    assert Decimal(0) == "0" by { ZeroText(); }
    assert p + ".0" == Print(v.major, v.minor, 0);
    ParsePrinted(v.major, v.minor, 0);
    var q := Decimal(line.major) + "." + Decimal(line.minor);
    ParsePrinted(line.major, line.minor, 0);
    assert q + ".0" == Print(line.major, line.minor, 0);
    assert ReleaseBranchVersion(line) == RELEASE + q && (RELEASE + q)[|RELEASE|..] == q;
  }

  lemma BranchedIff(repo: Repo, line: Version)
    requires InRange(line)
    requires forall b :: b in repo.branches && RELEASE <= b ==> PlainBranch(b)
    ensures LargestBranch(repo, line).Some? <==> ReleaseBranchVersion(line) in repo.branches
    ensures var largest := LargestBranch(repo, line);
      largest.Some? ==> ReleaseBranchVersion(largest.value) == ReleaseBranchVersion(line)
  {
    hide PlainBranch, ReleaseBranchVersion;
    var version := b => BranchVersion(b, line);
    forall b | b in repo.branches ensures version(b).Some? <==> b == ReleaseBranchVersion(line) {
      BranchStarts(line);
      if RELEASE <= b { BranchIff(b, line); }
    }
    var largest := LargestBranch(repo, line);
    if largest.Some? {
      var b :| b in repo.branches && version(b) == largest;
      SameLineSameBranch(largest.value, line);
    }
  }

  /** If branches that start like release branches are release branches, the branch reported is there,
      and it is reported whenever it is there. */
  lemma BranchFoundIff(repo: Repo, line: Version)
    requires InRange(line) && Free(repo.ref, '@')
    requires forall b :: b in repo.branches && RELEASE <= b ==> PlainBranch(b)
    ensures ReleaseBranch(repo, line) == (ReleaseBranchVersion(line), ReleaseBranchVersion(line) in repo.branches)
  {
    hide PlainBranch, ReleaseBranchVersion, LargestTag, LargestBranch, ParseRef;
    BranchedIff(repo, line);
    var largest := LargestBranch(repo, line);
    if largest.Some? { BranchRefParsed(repo.ref, largest.value); }
  }

  /** The greatest patch number released on a line. */
  ghost predicate Newest(repo: Repo, line: Version, patch: nat)
  {
    && HasTag(repo, line.major, line.minor, patch)
    && forall p: nat :: HasTag(repo, line.major, line.minor, p) ==> p <= patch
  }

  /** What each ruleset looks for and in which order: a release goes before a release branch, that before
      the default branch, and the narrower rulesets leave the others out. */
  lemma BestRefOrder(repo: Repo, line: Version, ruleset: Ruleset)
    requires InRange(line) && (line.major, line.minor) != (0, 0)
    requires forall b :: b in repo.branches && RELEASE <= b ==> PlainBranch(b)
    ensures var (ref, refType) := BestRef(repo, line, ruleset);
      var released := exists p: nat :: HasTag(repo, line.major, line.minor, p);
      var branched := ReleaseBranchVersion(line) in repo.branches;
      && (refType == ReleaseRef <==>
          released && (ruleset.ReleaseRule? || ruleset.AnyRule? || ruleset.ReleaseOrReleaseBranchRule?))
      && (refType == ReleaseBranchRef <==>
          branched && (ruleset.ReleaseBranchRule?
                       || (!released && (ruleset.AnyRule? || ruleset.ReleaseOrReleaseBranchRule?))))
      && (refType == DefaultBranchRef <==> ruleset.AnyRule? && !released && !branched)
      && match refType
         case ReleaseRef =>
           exists p: nat :: Newest(repo, line, p)
                            && ref == repo.ref + "@" + ReleaseVersion(Plain(line.major, line.minor, p))
         case ReleaseBranchRef => ref == repo.ref + "@" + ReleaseBranchVersion(line)
         case DefaultBranchRef => ref == repo.ref + "@" + repo.defaultBranch
         case NoRef => ref == repo.ref
         case _ => false
  {
    hide PlainBranch, ReleaseBranchVersion, ReleaseVersion, LargestTag, LargestBranch, HasTag;
    BranchedIff(repo, line);
    ReleasedIff(repo, line);
  }

  lemma ReleasedIff(repo: Repo, line: Version)
    requires InRange(line) && (line.major, line.minor) != (0, 0)
    ensures LargestTag(repo, line).Some? <==> exists p: nat :: HasTag(repo, line.major, line.minor, p)
    ensures var v := LargestTag(repo, line);
      v.Some? ==> Newest(repo, line, v.value.patch) && v.value == Plain(line.major, line.minor, v.value.patch)
  {
    hide LargestTag, TagVersion, ReleaseVersion;
    if LargestTag(repo, line).Some? {
      var v := LargestTag(repo, line).value;
      PickedIs(repo, line);
      PickedTagIsRealIff(repo, line);
      assert HasTag(repo, line.major, line.minor, v.patch);
    }
    if p: nat :| HasTag(repo, line.major, line.minor, p) { PickedIsMax(repo, line, p); }
  }

  lemma BranchStarts(v: Version)
    ensures RELEASE <= ReleaseBranchVersion(v)
  {
  }

  lemma SameLineSameBranch(v: Version, o: Version)
    ensures SameLine(v, o) ==> ReleaseBranchVersion(v) == ReleaseBranchVersion(o)
  {
  }

  lemma BranchRefParsed(ref: string, v: Version)
    requires Free(ref, '@')
    ensures ParseRef(ref + "@" + ReleaseBranchVersion(v)) == (ref, ReleaseBranchVersion(v), ReleaseBranchRef)
  {
    hide Split, Decimal;
    DecimalFree(v.major, '@');
    DecimalFree(v.minor, '@');
    RefSplits(ref, ReleaseBranchVersion(v));
  }

  /** With an `@` in the module path the ref cannot be taken apart again: the proposal is v0.0.1,
      whatever the tags are. Go module paths hold no `@`, so this shows what the code relies on rather
      than what happens. */
  lemma AtInPath(repo: Repo, line: Version)
    requires LargestTag(repo, line).Some? && !Free(repo.ref, '@')
    ensures NextRelease(repo, line) == ReleaseVersion(Plain(0, 0, 1))
  {
    hide LargestTag, LargestBranch, Split, Join, Print, Parse;
    var v := LargestTag(repo, line).value;
    SplitLonger(repo.ref, ReleaseVersion(v));
    EmptyTolerant();
  }

  lemma EmptyTolerant()
    ensures Tolerant("") == ZERO
  {
    hide Numeral;
    var split := SplitN("", '.', 3);
    assert split == [""];
    var parts := seq(|split|, i requires 0 <= i < |split| => Normal(split[i]));
    assert parts == [""];
    assert FillUp(parts) == ["", "0", "0"];
    JoinThree("", "0", "0");
    SplitTwice("", "0", "0");
    EmptyNumeral();
  }

  lemma EmptyNumeral()
    ensures Numeral("") == None
  {
  }

  lemma SplitLonger(ref: string, name: string)
    requires !Free(ref, '@')
    ensures |Split(ref + "@" + name, "@")| > 2
  {
    hide Split, At;
    SplitAppend(ref, '@', name);
    var i :| 0 <= i < |ref| && ref[i] == '@';
    AtOne(ref, '@', i);
    SplitOnce(ref, "@");
  }
}
