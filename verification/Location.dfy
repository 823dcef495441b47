/**
 GKE locations (pkg/gke/location.go): a region, `us-central1`, or a zone of it, `us-central1-a`.
 */
module Location {
  import opened Text

  /** `strings.TrimRight`: drops trailing characters as long as they are in the cutset. */
  function TrimRight(s: string, cutset: string): string
  {
    if s != "" && s[|s|-1] in cutset then TrimRight(s[..|s|-1], cutset) else s
  }

  /** `GetClusterLocation`. */
  function ClusterLocation(region: string, zone: string): string
  {
    if zone != "" then region + "-" + zone else region
  }

  /** `RegionZoneFromLoc`. */
  function RegionZone(location: string): (string, string)
  {
    var parts := Split(location, "-");
    if |parts| > 2 then
      var zone := parts[|parts|-1];
      (TrimRight(location, "-" + zone), zone)
    else (location, "")
  }

  /** The location an operation goes to when a cluster at `location` is meant. */
  function Resolve(location: string): string
  {
    var (region, zone) := RegionZone(location);
    ClusterLocation(region, zone)
  }

  predicate Regional(location: string)
  {
    RegionZone(location).1 == ""
  }

  lemma {:induction false} TrimRightStops(s: string, tail: string, cutset: string)
    requires forall k :: 0 <= k < |tail| ==> tail[k] in cutset
    ensures TrimRight(s + tail, cutset) == TrimRight(s, cutset)
    decreases |tail|
  {
    if tail == "" {
      assert s + tail == s;
    } else {
      var t := tail[..|tail|-1];
      assert (s + tail)[..|s + tail|-1] == s + t;
      TrimRightStops(s, t, cutset);
    }
  }

  lemma {:induction false} TrimRightIs(s: string, cutset: string)
    ensures |TrimRight(s, cutset)| <= |s|
    ensures TrimRight(s, cutset) == s <==> (s == "" || s[|s|-1] !in cutset)
  {
    if s != "" && s[|s|-1] in cutset { TrimRightIs(s[..|s|-1], cutset); }
  }

  lemma LastPart(location: string)
    requires |Split(location, "-")| > 1
    ensures var parts := Split(location, "-");
            location == Join(parts[..|parts|-1], "-") + "-" + parts[|parts|-1]
  {
    hide Split, Join;
    var parts := Split(location, "-");
    JoinSplit(location, "-");
    JoinAppend(parts[..|parts|-1], parts[|parts|-1], "-");
    assert parts == parts[..|parts|-1] + [parts[|parts|-1]];
  }

  /** The text before the last dash. */
  function Stem(location: string): string
  {
    var parts := Split(location, "-");
    Join(parts[..|parts|-1], "-")
  }

  lemma {:induction false} StemHasDash(parts: seq<string>)
    requires |parts| > 1
    ensures Join(parts, "-") != ""
  {
  }

  /** When the two functions undo each other: the location has at most one dash, or it ends in a
      zone whose region does not end in a dash or in a character of that zone. */
  predicate WellFormed(location: string)
  {
    var parts := Split(location, "-");
    |parts| <= 2
    || (parts[|parts|-1] != ""
        && var stem := Stem(location);
           stem != "" && stem[|stem|-1] != '-' && stem[|stem|-1] !in parts[|parts|-1])
  }

  /** Such a location is a region exactly if it has at most one dash. */
  lemma RegionalIff(location: string)
    requires WellFormed(location)
    ensures Regional(location) <==> |Split(location, "-")| <= 2
  {
    hide Split, Stem, TrimRight;
  }

  /** Operations reach the cluster meant exactly for well-formed locations. */
  lemma ResolveExactIff(location: string)
    ensures Resolve(location) == location <==> WellFormed(location)
  {
    hide Split, Join, TrimRight;
    var parts := Split(location, "-");
    if |parts| > 2 {
      var zone, stem := parts[|parts|-1], Stem(location);
      LastPart(location);
      StemHasDash(parts[..|parts|-1]);
      assert location == stem + ("-" + zone);
      TrimRightStops(stem, "-" + zone, "-" + zone);
      TrimRightIs(stem, "-" + zone);
      var region := TrimRight(stem, "-" + zone);
      assert stem[|stem|-1] !in "-" + zone <==> stem[|stem|-1] != '-' && stem[|stem|-1] !in zone;
      if zone != "" && region + "-" + zone == location {
        assert |region| == |stem|;
        assert region == (region + "-" + zone)[..|region|] == (stem + ("-" + zone))[..|stem|] == stem;
      }
    }
  }

  lemma SplitOfThree(a: string, b: string, c: string)
    requires Free(a, '-') && Free(b, '-') && Free(c, '-')
    ensures Split(a + "-" + (b + "-" + c), "-") == [a, b, c]
  {
    hide Split;
    SplitAppend(a, '-', b + "-" + c);
    SplitAppend(b, '-', c);
    SplitFree(a, '-');
    SplitFree(b, '-');
    SplitFree(c, '-');
    assert [a] + ([b] + [c]) == [a, b, c];
  }

  /** A region that ends in a character of its zone is cut short: operations miss the cluster. GKE has no
      such location, its regions end in a digit and its zones are letters; nothing in the code checks
      that. */
  lemma OverTrimmed()
    ensures Resolve("a-b1-1") != "a-b1-1"
  {
    hide Split, Join, Resolve;
    SplitOfThree("a", "b1", "1");
    assert "a" + "-" + ("b1" + "-" + "1") == "a-b1-1";
    JoinTwo("a", ["b1"], "-");
    JoinSingle("b1", "-");
    assert ["a"] + ["b1"] == ["a", "b1", "1"][..2];
    ResolveExactIff("a-b1-1");
    assert Stem("a-b1-1") == "a" + "-" + "b1";
  }
}
