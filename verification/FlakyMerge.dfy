/**
 Adding one record to the history read from the last comment (`createHistoryUnicode` in
 tools/flaky-test-reporter/github_issue.go), and why keeping only the 60 greatest records of each
 comment equals keeping the 60 greatest of all records ever written.
 */
module FlakyMerge {
  import opened Text
  import opened FlakyHistory

  function StripAll(records: seq<string>): seq<string>
  {
    seq(|records|, i requires 0 <= i < |records| => Strip(records[i]))
  }

  /** The records of a set, greatest first. */
  ghost function Descending(all: set<string>): seq<string>
  {
    Reverse(SortedList(all))
  }

  /** The greatest 60. */
  ghost function Top(all: set<string>): seq<string>
  {
    Take(Descending(all), MAX_RECORDS)
  }

  /** The records of the new comment. */
  ghost function Merged(current: string, comment: string): seq<string>
  {
    Take(Reverse(Sort([current] + SortedList(Elements(StripAll(FindRecords(comment)))))), MAX_RECORDS)
  }

  /** Lines 163-177: one icon with a link for every build scanned. */
  method BuildRecord(start: string, runs: seq<(RunResult, string)>) returns (current: string)
    ensures current == Record(start, runs)
  {
    hide RunLink;
    current := start + ": ";
    for i := 0 to |runs|
      invariant current == Record(start, runs[..i])
    {
      RecordGrows(start, runs, i);
      current := current + RunLink(runs[i]);
    }
    assert runs[..|runs|] == runs;
  }

  lemma RecordGrows(start: string, runs: seq<(RunResult, string)>, i: nat)
    requires i < |runs|
    ensures Record(start, runs[..i + 1]) == Record(start, runs[..i]) + RunLink(runs[i])
  {
    hide RunLink;
    assert runs[..i + 1][..i] == runs[..i];
  }

  /** Lines 180-187: the distinct records of the old comment. */
  method UniqueEntries(oldHistory: seq<string>) returns (unique: seq<string>)
    ensures Distinct(unique) && Elements(unique) == Elements(StripAll(oldHistory))
  {
    hide Strip;
    unique := [];
    ghost var stripped := StripAll(oldHistory);
    for i := 0 to |oldHistory|
      invariant Distinct(unique) && Elements(unique) == Elements(stripped[..i])
    {
      var entry := Strip(oldHistory[i]);
      assert stripped[..i + 1] == stripped[..i] + [entry];
      assert Elements(stripped[..i + 1]) == Elements(stripped[..i]) + {entry};
      if entry !in unique {
        assert Elements(unique + [entry]) == Elements(unique) + {entry};
        unique := unique + [entry];
      }
    }
    assert stripped[..|oldHistory|] == stripped;
  }

  /** `createHistoryUnicode`. */
  method CreateHistory(start: string, runs: seq<(RunResult, string)>, comment: string) returns (text: string)
    ensures text == HistoryText(Merged(Record(start, runs), comment))
  {
    hide Record, FindRecords, StripAll, HistoryText;
    var current := BuildRecord(start, runs);
    var oldHistory := FindRecords(comment);
    var uniqHistoryEntries := UniqueEntries(oldHistory);
    SortsTo(uniqHistoryEntries, Elements(StripAll(oldHistory)));
    var records := Reverse(Sort([current] + Sort(uniqHistoryEntries)));
    if |records| > MAX_RECORDS {
      records := records[..MAX_RECORDS];
    }
    text := HistoryText(records);
  }

  // ----- Descending lists ----------------------------------------------------------------

  ghost predicate StrictlyDescending(s: seq<string>)
  {
    forall i, j :: 0 <= i < j < |s| ==> Less(s[j], s[i])
  }

  lemma ReversedDescends(s: seq<string>)
    requires StrictlyAscending(s)
    ensures StrictlyDescending(Reverse(s))
  {
    hide Less;
    var r := Reverse(s);
    forall i, j | 0 <= i < j < |r| ensures Less(r[j], r[i]) {
      assert r[i] == s[|s| - 1 - i] && r[j] == s[|s| - 1 - j];
    }
  }

  lemma ReverseElements(s: seq<string>)
    ensures forall x :: x in s <==> x in Reverse(s)
    ensures Elements(Reverse(s)) == Elements(s)
  {
    var r := Reverse(s);
    forall x ensures x in s <==> x in r {
      if i :| 0 <= i < |s| && s[i] == x { assert r[|s| - 1 - i] == x; }
      if i :| 0 <= i < |r| && r[i] == x { assert s[|s| - 1 - i] == x; }
    }
  }

  lemma DescendingIs(all: set<string>)
    ensures StrictlyDescending(Descending(all)) && Elements(Descending(all)) == all
  {
    hide Less, Reverse, SortedList;
    ReversedDescends(SortedList(all));
    ReverseElements(SortedList(all));
  }

  lemma {:induction false} StrictlyDescendingUnique(s: seq<string>, t: seq<string>)
    requires StrictlyDescending(s) && StrictlyDescending(t) && Elements(s) == Elements(t)
    ensures s == t
  {
    assert forall x :: x in s <==> x in Reverse(s) by { ReverseElements(s); }
    assert forall x :: x in t <==> x in Reverse(t) by { ReverseElements(t); }
    assert forall x :: x in s <==> x in Elements(s);
    assert forall x :: x in t <==> x in Elements(t);
    StrictlyAscendingUnique(Reverse(s), Reverse(t));
    forall i | 0 <= i < |s| ensures s[i] == t[i] {
      assert s[i] == Reverse(s)[|s| - 1 - i];
    }
  }

  lemma DescendingPrefix(all: set<string>, n: nat)
    ensures var d := Descending(all); var t := Take(d, n);
      && |d| == |all| && t == d[..|t|] && |t| == (if |all| < n then |all| else n)
  {
    hide Less, Reverse, SortedList;
    DescendingIs(all);
    DescendingLength(Descending(all));
  }

  /** At most sixty records, greatest first, and every record left out is smaller than all of them. */
  lemma TopIs(all: set<string>)
    ensures StrictlyDescending(Top(all)) && Elements(Top(all)) <= all
    ensures |Top(all)| == if |all| < 60 then |all| else 60
    ensures forall x, y :: x in Top(all) && y in all && y !in Top(all) ==> Less(y, x)
  {
    hide Less, Descending;
    var d, t := Descending(all), Top(all);
    DescendingIs(all);
    DescendingPrefix(all, MAX_RECORDS);
    TakeMembers(d, MAX_RECORDS);
    assert forall y :: y in d <==> y in Elements(d);
    forall x, y | x in t && y in all && y !in t ensures Less(y, x) {
      var i :| 0 <= i < |t| && t[i] == x;
      var j :| 0 <= j < |d| && d[j] == y;
      assert d[i] == x;
    }
  }

  function InsertDown(x: string, s: seq<string>): seq<string>
  {
    if s == [] || Less(s[0], x) then [x] + s else [s[0]] + InsertDown(x, s[1..])
  }

  lemma {:induction false} InsertDownIs(x: string, s: seq<string>)
    requires StrictlyDescending(s) && x !in s
    ensures StrictlyDescending(InsertDown(x, s)) && Elements(InsertDown(x, s)) == Elements(s) + {x}
  {
    if s != [] && !Less(s[0], x) {
      LessTotal(s[0], x);
      InsertDownIs(x, s[1..]);
      var t := InsertDown(x, s[1..]);
      assert forall y :: y in t <==> y in Elements(t);
      assert forall y :: y in s[1..] <==> y in Elements(s[1..]);
      forall j | 0 <= j < |t| ensures Less(t[j], s[0]) {
        assert t[j] in Elements(t);
      }
      assert Elements([s[0]] + t) == {s[0]} + Elements(t);
      assert Elements(s) == {s[0]} + Elements(s[1..]) by { assert s == [s[0]] + s[1..]; }
    } else if s != [] {
      forall j | 0 <= j < |s| ensures Less(s[j], x) {
        if j > 0 { LessTransitive(s[j], s[0], x); }
      }
      assert Elements([x] + s) == Elements(s) + {x};
    }
  }

  /** Truncating before or after an insertion leaves the same first `n` records. */
  lemma {:induction false} TakeInsert(x: string, s: seq<string>, n: nat)
    ensures Take(InsertDown(x, Take(s, n)), n) == Take(InsertDown(x, s), n)
  {
    hide Less;
    if n == 0 || s == [] || Less(s[0], x) {
      assert |s| > n ==> ([x] + s[..n])[..n] == ([x] + s)[..n];
    } else {
      TakeInsert(x, s[1..], n - 1);
      assert Take(s, n) == [s[0]] + Take(s[1..], n - 1);
      assert Take(InsertDown(x, s), n) == [s[0]] + Take(InsertDown(x, s[1..]), n - 1);
      var u := Take(s[1..], n - 1);
      assert ([s[0]] + u)[1..] == u;
      assert Take([s[0]] + InsertDown(x, u), n) == [s[0]] + Take(InsertDown(x, u), n - 1);
    }
  }

  lemma {:induction false} InsertLast(x: string, s: seq<string>)
    requires forall i :: 0 <= i < |s| ==> Less(x, s[i])
    ensures InsertDown(x, s) == s + [x]
  {
    if s != [] {
      LessAsymmetric(x, s[0]);
      InsertLast(x, s[1..]);
    }
  }

  lemma TakeMembers(s: seq<string>, n: nat)
    ensures forall k :: 0 <= k < |s| && k < n ==> s[k] in Take(s, n)
  {
    forall k | 0 <= k < |s| && k < n ensures s[k] in Take(s, n) {
      assert Take(s, n)[k] == s[k];
    }
  }

  /** The step that makes truncation harmless. */
  lemma TopInsert(all: set<string>, x: string)
    requires x !in Top(all)
    ensures Take(InsertDown(x, Top(all)), MAX_RECORDS) == Top(all + {x})
  {
    hide Descending, InsertDown;
    var d := Descending(all);
    DescendingIs(all);
    DescendingIs(all + {x});
    assert forall y :: y in d <==> y in Elements(d);
    if x !in all {
      InsertDownIs(x, d);
      StrictlyDescendingUnique(InsertDown(x, d), Descending(all + {x}));
      TakeInsert(x, d, MAX_RECORDS);
    } else {
      assert all + {x} == all;
      assert x in d;
      var k :| 0 <= k < |d| && d[k] == x;
      TakeMembers(d, MAX_RECORDS);
      assert k >= MAX_RECORDS;
      InsertLast(x, d[..MAX_RECORDS]);
      assert (d[..MAX_RECORDS] + [x])[..MAX_RECORDS] == d[..MAX_RECORDS];
    }
  }

  /** With records read back as they are, the merge is an insertion. */
  lemma MergeInserts(current: string, comment: string, records: seq<string>)
    requires Elements(StripAll(FindRecords(comment))) == Elements(records)
    requires StrictlyDescending(records) && current !in records
    ensures Merged(current, comment) == Take(InsertDown(current, records), MAX_RECORDS)
  {
    hide Merged, InsertDown, StripAll, FindRecords;
    var sorted := SortedList(Elements(records));
    assert forall y :: y in sorted <==> y in Elements(sorted);
    assert forall y :: y in records <==> y in Elements(records);
    StrictIsDistinct(sorted);
    assert Distinct([current] + sorted);
    assert Elements([current] + sorted) == Elements(records) + {current};
    SortsTo([current] + sorted, Elements(records) + {current});
    DescendingIs(Elements(records) + {current});
    InsertDownIs(current, records);
    StrictlyDescendingUnique(InsertDown(current, records), Descending(Elements(records) + {current}));
    MergedIs(current, comment, records);
  }

  lemma MergedIs(current: string, comment: string, records: seq<string>)
    requires Elements(StripAll(FindRecords(comment))) == Elements(records)
    ensures Merged(current, comment) == Take(Reverse(Sort([current] + SortedList(Elements(records)))), MAX_RECORDS)
  {
  }

  lemma StrictIsDistinct(s: seq<string>)
    requires StrictlyAscending(s)
    ensures Distinct(s)
  {
    forall i, j | 0 <= i < j < |s| ensures s[i] != s[j] {
      LessAsymmetric(s[i], s[j]);
    }
  }

  /** Incremental history equals full history, for one scan: if the comment carries the 60 greatest
      of all records written so far and the new record is not among them, the next comment carries
      the 60 greatest of all records including the new one. */
  lemma MergeKeepsTop(current: string, comment: string, all: set<string>)
    requires StripAll(FindRecords(comment)) == Top(all) && current !in Top(all)
    ensures Merged(current, comment) == Top(all + {current})
  {
    hide Merged, InsertDown, StripAll, FindRecords, Descending;
    DescendingIs(all);
    assert StrictlyDescending(Top(all));
    MergeInserts(current, comment, Top(all));
    TopInsert(all, current);
  }

  // ----- A record that is there already --------------------------------------------------

  lemma ReverseTwice(s: seq<string>)
    ensures Reverse(Reverse(s)) == s
  {
  }

  lemma {:induction false} ReverseMultiset(s: seq<string>)
    ensures multiset(Reverse(s)) == multiset(s)
  {
    if s != [] {
      ReverseMultiset(s[1..]);
      assert s == [s[0]] + s[1..];
    }
  }

  lemma DoubledDescends(r: seq<string>, k: nat)
    requires StrictlyDescending(r) && k < |r|
    ensures Ascending(Reverse(r[..k] + [r[k]] + r[k..]))
  {
    var u := r[..k] + [r[k]] + r[k..];
    forall i, j | 0 <= i < j < |u| ensures !Less(u[i], u[j]) {
      var a, b := if i <= k then i else i - 1, if j <= k then j else j - 1;
      assert u[i] == r[a] && u[j] == r[b];
      if a < b { LessAsymmetric(r[b], r[a]); } else { LessIrreflexive(r[a]); }
    }
    var v := Reverse(u);
    forall i, j | 0 <= i < j < |v| ensures !Less(v[j], v[i]) {
      assert v[i] == u[|u| - 1 - i] && v[j] == u[|u| - 1 - j];
    }
  }

  lemma {:induction false} LessIrreflexive(a: string)
    ensures !Less(a, a)
  {
    if a != [] { LessIrreflexive(a[1..]); }
  }

  lemma SortedIsReversed(records: seq<string>)
    requires StrictlyDescending(records)
    ensures SortedList(Elements(records)) == Reverse(records)
  {
    DescendingIs(Elements(records));
    StrictlyDescendingUnique(records, Descending(Elements(records)));
    ReverseTwice(SortedList(Elements(records)));
  }

  lemma DoubledSorts(records: seq<string>, k: nat)
    requires StrictlyDescending(records) && k < |records|
    ensures Sort([records[k]] + Reverse(records)) == Reverse(records[..k] + [records[k]] + records[k..])
  {
    hide Sort, Reverse;
    var doubled := records[..k] + [records[k]] + records[k..];
    ReverseMultiset(records);
    ReverseMultiset(doubled);
    assert records == records[..k] + records[k..];
    assert multiset([records[k]] + Reverse(records)) == multiset(Reverse(doubled));
    DoubledDescends(records, k);
    AscendingUnique(Sort([records[k]] + Reverse(records)), Reverse(doubled));
  }

  /** The list before truncation holds the record twice. */
  lemma MergeDoubles(comment: string, records: seq<string>, k: nat)
    requires Elements(StripAll(FindRecords(comment))) == Elements(records)
    requires StrictlyDescending(records) && k < |records|
    ensures Merged(records[k], comment) == Take(records[..k] + [records[k]] + records[k..], MAX_RECORDS)
  {
    hide Merged, StripAll, FindRecords, Take, Sort, Reverse, SortedList;
    SortedIsReversed(records);
    DoubledSorts(records, k);
    ReverseTwice(records[..k] + [records[k]] + records[k..]);
    MergedIs(records[k], comment, records);
  }

  lemma DoubledMembers(records: seq<string>, k: nat)
    requires k < |records|
    requires |records| < MAX_RECORDS || (k == MAX_RECORDS - 1 && |records| == MAX_RECORDS)
    ensures Elements(Take(records[..k] + [records[k]] + records[k..], MAX_RECORDS)) == Elements(records)
  {
    var doubled := records[..k] + [records[k]] + records[k..];
    assert records == records[..k] + records[k..];
    assert forall x :: x in records <==> x in doubled;
    if |records| == MAX_RECORDS {
      assert doubled[..MAX_RECORDS] == records;
    }
  }

  lemma DoubledLosesLast(records: seq<string>, k: nat)
    requires StrictlyDescending(records) && k < MAX_RECORDS - 1 < |records| == MAX_RECORDS
    ensures records[MAX_RECORDS - 1] !in Take(records[..k] + [records[k]] + records[k..], MAX_RECORDS)
  {
    hide Less;
    var merged := Take(records[..k] + [records[k]] + records[k..], MAX_RECORDS);
    var last := records[MAX_RECORDS - 1];
    forall i | 0 <= i < |merged| ensures merged[i] != last {
      var a := if i <= k then i else i - 1;
      assert merged[i] == records[a] && a < MAX_RECORDS - 1;
      LessAsymmetric(last, records[a]);
    }
  }

  lemma {:induction false} DescendingLength(d: seq<string>)
    requires StrictlyDescending(d)
    ensures |d| == |Elements(d)|
  {
    if d != [] {
      DescendingLength(d[1..]);
      assert d == [d[0]] + d[1..];
      assert Elements(d) == {d[0]} + Elements(d[1..]);
      forall i | 0 <= i < |d[1..]| ensures d[1..][i] != d[0] {
        LessAsymmetric(d[1..][i], d[0]);
      }
    }
  }

  /** No record of the set is smaller. */
  ghost predicate IsLeast(x: string, all: set<string>)
  {
    x in all && forall y :: y in all && y != x ==> Less(x, y)
  }

  /** What a comment that holds `all` remembers once record `x` is written. */
  ghost function Remember(all: set<string>, x: string): set<string>
  {
    if x !in all then Elements(Top(all + {x}))
    else if |all| < MAX_RECORDS || IsLeast(x, all) then all
    else set y | y in all && !IsLeast(y, all)
  }

  lemma LastIsLeast(records: seq<string>, k: nat)
    requires StrictlyDescending(records) && k < |records|
    ensures IsLeast(records[k], Elements(records)) <==> k == |records| - 1
  {
    var last := records[|records|-1];
    forall y | y in Elements(records) && y != last ensures Less(last, y) {
      var i :| 0 <= i < |records| && records[i] == y;
    }
    if k < |records| - 1 {
      LessAsymmetric(last, records[k]);
      assert last in Elements(records);
    }
  }

  lemma DoubledIsOld(records: seq<string>, k: nat)
    requires k < |records|
    ensures Elements(Take(records[..k] + [records[k]] + records[k..], MAX_RECORDS)) <= Elements(records)
  {
    var doubled := records[..k] + [records[k]] + records[k..];
    assert records == records[..k] + records[k..];
    assert forall x :: x in records <==> x in doubled;
    assert doubled == doubled[..] && forall x :: x in Take(doubled, MAX_RECORDS) ==> x in doubled;
  }

  lemma DoubledKeepsRest(records: seq<string>, k: nat)
    requires StrictlyDescending(records) && k < MAX_RECORDS - 1 < |records| == MAX_RECORDS
    ensures Elements(Take(records[..k] + [records[k]] + records[k..], MAX_RECORDS))
         == Elements(records) - {records[MAX_RECORDS - 1]}
  {
    hide Less;
    var doubled := records[..k] + [records[k]] + records[k..];
    var merged := doubled[..MAX_RECORDS];
    DoubledLosesLast(records, k);
    DoubledIsOld(records, k);
    assert merged == Take(doubled, MAX_RECORDS);
    assert doubled == merged + [records[MAX_RECORDS - 1]];
    assert records == records[..k] + records[k..];
    assert forall x :: x in records <==> x in doubled;
  }

  /** One write to a comment, in all cases, also to one that holds a record twice: what it remembers
      depends on the set of its records alone. */
  lemma WriteRemembers(current: string, comment: string, all: set<string>)
    requires Elements(StripAll(FindRecords(comment))) == all && |all| <= MAX_RECORDS
    ensures Elements(Merged(current, comment)) == Remember(all, current)
    ensures |Remember(all, current)| <= MAX_RECORDS
    ensures forall r :: r in Merged(current, comment) ==> r in all || r == current
  {
    hide Merged, StripAll, FindRecords, Less, InsertDown, Descending;
    var records := Descending(all);
    DescendingIs(all);
    DescendingLength(records);
    if current in all {
      var k :| 0 <= k < |records| && records[k] == current;
      RememberOld(records, k, comment);
    } else {
      assert Take(records, MAX_RECORDS) == records;
      MergeInserts(current, comment, records);
      TopInsert(all, current);
      TopBound(all + {current});
    }
  }

  lemma TopBound(all: set<string>)
    ensures |Elements(Top(all))| <= MAX_RECORDS && Elements(Top(all)) <= all
  {
    var d := Descending(all);
    DescendingIs(all);
    DescendingLength(Top(all));
    assert forall i :: 0 <= i < |Top(all)| ==> Top(all)[i] == d[i];
    assert forall y :: y in d ==> y in Elements(d);
  }

  lemma RememberOld(records: seq<string>, k: nat, comment: string)
    requires StrictlyDescending(records) && k < |records| <= MAX_RECORDS
    requires Elements(StripAll(FindRecords(comment))) == Elements(records)
    ensures Elements(Merged(records[k], comment)) == Remember(Elements(records), records[k])
    ensures |Remember(Elements(records), records[k])| <= MAX_RECORDS
    ensures forall r :: r in Merged(records[k], comment) ==> r in Elements(records)
  {
    hide Merged, StripAll, FindRecords, Less, Take;
    MergeDoubles(comment, records, k);
    DescendingLength(records);
    LastIsLeast(records, k);
    DoubledIsOld(records, k);
    var all := Elements(records);
    assert forall r :: r in Merged(records[k], comment) ==> r in Elements(Merged(records[k], comment));
    if |records| < MAX_RECORDS || k == MAX_RECORDS - 1 {
      DoubledMembers(records, k);
    } else {
      DoubledKeepsRest(records, k);
      OnlyLeast(records);
      SubsetSize(Remember(all, records[k]), all);
    }
  }

  lemma OnlyLeast(records: seq<string>)
    requires StrictlyDescending(records) && records != []
    ensures (set y | y in Elements(records) && !IsLeast(y, Elements(records)))
         == Elements(records) - {records[|records|-1]}
  {
    hide IsLeast, StrictlyDescending;
    forall y | y in Elements(records) ensures IsLeast(y, Elements(records)) <==> y == records[|records|-1] {
      var k :| 0 <= k < |records| && records[k] == y;
      LastIsLeast(records, k);
      LastIsLeast(records, |records| - 1);
      OneLeast(y, records[|records|-1], records, k);
    }
  }

  lemma OneLeast(y: string, last: string, records: seq<string>, k: nat)
    requires StrictlyDescending(records) && k < |records| && records[k] == y && last == records[|records|-1]
    ensures y == last <==> k == |records| - 1
  {
    if k < |records| - 1 { LessAsymmetric(last, y); }
  }

  /** A scan that repeats a record of the comment costs nothing exactly while there is room, or when
      the record repeated is the last one; otherwise it pushes out the oldest record. */
  lemma RepeatedRecordKeepsIff(current: string, comment: string)
    requires current in Elements(StripAll(FindRecords(comment)))
    requires |Elements(StripAll(FindRecords(comment)))| <= MAX_RECORDS
    ensures var all := Elements(StripAll(FindRecords(comment)));
      Elements(Merged(current, comment)) == all <==> |all| < MAX_RECORDS || IsLeast(current, all)
  {
    hide Merged, StripAll, FindRecords, IsLeast;
    var all := Elements(StripAll(FindRecords(comment)));
    WriteRemembers(current, comment, all);
    SomeLeast(all);
  }

  lemma SomeLeast(all: set<string>)
    requires all != {}
    ensures exists y :: y in all && IsLeast(y, all)
  {
    var d := Descending(all);
    DescendingIs(all);
    EmptyElements(d);
    LastIsLeast(d, |d| - 1);
    assert d[|d|-1] in Elements(d);
  }
}
