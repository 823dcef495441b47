/**
 The string operations of Go that the modelled tools rely on: the byte order used by
 `sort.Strings`, `strings.Split`, `strings.Join`, and decimal printing and parsing.
 */
module Text {

  datatype Option<+T> = None | Some(value: T)

  // ----- Order -------------------------------------------------------------------------

  predicate Less(a: string, b: string)
  {
    if b == [] then false
    else if a == [] then true
    else a[0] < b[0] || (a[0] == b[0] && Less(a[1..], b[1..]))
  }

  predicate SamePrefix(a: string, b: string, k: nat)
  {
    0 < k <= |a| && k <= |b| && a[..k] == b[..k] ==> a[..k][0] == b[..k][0] && a[0] == b[0]
  }

  /** The byte order: a proper prefix comes first, and else the first difference decides. */
  lemma {:induction false} LessIff(a: string, b: string)
    ensures Less(a, b) <==>
            exists k: nat :: k <= |a| && k < |b| && a[..k] == b[..k] && (k == |a| || a[k] < b[k])
  {
    if a == [] || b == [] || a[0] != b[0] {
      if b != [] { assert a[..0] == b[..0]; }
      forall k: nat ensures SamePrefix(a, b, k) {
      }
    } else {
      LessIff(a[1..], b[1..]);
      if k: nat :|
        k <= |a[1..]| && k < |b[1..]| && a[1..][..k] == b[1..][..k] && (k == |a[1..]| || a[1..][k] < b[1..][k]) {
        assert a[..k + 1] == [a[0]] + a[1..][..k] && b[..k + 1] == [b[0]] + b[1..][..k];
        assert a[..k + 1] == b[..k + 1];
      }
      if k: nat :| k <= |a| && k < |b| && a[..k] == b[..k] && (k == |a| || a[k] < b[k]) {
        assert k > 0;
        assert a[1..][..k - 1] == a[..k][1..] && b[1..][..k - 1] == b[..k][1..];
      }
    }
  }

  lemma {:induction false} LessAsymmetric(a: string, b: string)
    requires Less(a, b)
    ensures !Less(b, a) && a != b
  {
    if a != [] && a[0] == b[0] {
      LessAsymmetric(a[1..], b[1..]);
    }
  }

  lemma {:induction false} LessTotal(a: string, b: string)
    ensures Less(a, b) || Less(b, a) || a == b
  {
    if a != [] && b != [] && a[0] == b[0] {
      LessTotal(a[1..], b[1..]);
      assert a == [a[0]] + a[1..] && b == [b[0]] + b[1..];
    }
  }

  lemma {:induction false} LessTransitive(a: string, b: string, c: string)
    requires Less(a, b) && Less(b, c)
    ensures Less(a, c)
  {
    if a != [] && a[0] == b[0] && b[0] == c[0] {
      LessTransitive(a[1..], b[1..], c[1..]);
    }
  }

  /** Ascending and free of duplicates. */
  ghost predicate StrictlyAscending(s: seq<string>)
  {
    forall i, j :: 0 <= i < j < |s| ==> Less(s[i], s[j])
  }

  /** Ascending, duplicates allowed: what `sort.Strings` leaves behind. */
  ghost predicate Ascending(s: seq<string>)
  {
    forall i, j :: 0 <= i < j < |s| ==> !Less(s[j], s[i])
  }

  ghost function Elements<T>(s: seq<T>): set<T>
  {
    set x | x in s
  }

  lemma EmptyElements<T>(s: seq<T>)
    ensures Elements(s) == {} <==> s == []
  {
    if s != [] {
      assert s[0] in Elements(s);
    }
  }

  lemma {:induction false} SubsetSize<T>(a: set<T>, b: set<T>)
    requires a <= b
    ensures |a| <= |b|
  {
    if x :| x in a {
      SubsetSize(a - {x}, b - {x});
    } else {
      assert a == {};
    }
  }

  ghost predicate Distinct<T>(s: seq<T>)
  {
    forall i, j :: 0 <= i < j < |s| ==> s[i] != s[j]
  }

  function Insert(x: string, s: seq<string>): (r: seq<string>)
    ensures multiset(r) == multiset(s) + multiset{x}
  {
    if s == [] || !Less(s[0], x) then
      assert [x] + s == [x] + s[..];
      [x] + s
    else
      assert s == [s[0]] + s[1..];
      [s[0]] + Insert(x, s[1..])
  }

  lemma {:induction false} InsertAscending(x: string, s: seq<string>)
    requires Ascending(s)
    ensures Ascending(Insert(x, s))
  {
    var r := Insert(x, s);
    if s == [] {
    } else if !Less(s[0], x) {
      forall i, j | 0 <= i < j < |r| ensures !Less(r[j], r[i]) {
        if i == 0 && Less(s[j-1], x) {
          LessTotal(s[0], x);
          if s[0] != x { LessTransitive(s[j-1], x, s[0]); }
        }
      }
    } else {
      InsertAscending(x, s[1..]);
      var t := Insert(x, s[1..]);
      forall j | 0 <= j < |t| ensures !Less(t[j], s[0]) {
        assert t[j] in multiset(t);
        if t[j] == x { LessAsymmetric(s[0], x); } else { assert t[j] in s[1..]; }
      }
    }
  }

  /** `sort.Strings`. */
  function Sort(s: seq<string>): (r: seq<string>)
    ensures multiset(r) == multiset(s)
    ensures Ascending(r)
  {
    if s == [] then []
    else
      assert s == [s[0]] + s[1..];
      InsertAscending(s[0], Sort(s[1..]));
      Insert(s[0], Sort(s[1..]))
  }

  /** A sorted list is determined by its contents, so the order in which a Go map was
      iterated before its keys were sorted does not matter. */
  lemma {:induction false} StrictlyAscendingUnique(s: seq<string>, t: seq<string>)
    requires StrictlyAscending(s) && StrictlyAscending(t)
    requires Elements(s) == Elements(t)
    ensures s == t
    decreases |s|
  {
    if s == [] {
      EmptyElements(t);
    } else {
      assert s[0] in Elements(t);
      assert t != [] && t[0] in Elements(s);
      var i :| 0 <= i < |t| && t[i] == s[0];
      var j :| 0 <= j < |s| && s[j] == t[0];
      if s[0] != t[0] {
        LessAsymmetric(s[0], s[j]);
      }
      forall x ensures x in Elements(s[1..]) <==> x in Elements(t[1..]) {
        TailElements(s, x);
        TailElements(t, x);
      }
      assert Elements(s[1..]) == Elements(t[1..]);
      StrictlyAscendingUnique(s[1..], t[1..]);
      assert s == [s[0]] + s[1..] && t == [t[0]] + t[1..];
    }
  }

  /** The same with duplicates. */
  lemma TailMultiset<T>(s: seq<T>)
    requires s != []
    ensures s == [s[0]] + s[1..] && multiset(s[1..]) == multiset(s) - multiset{s[0]}
  {
    assert s == [s[0]] + s[1..];
  }

  lemma {:induction false} AscendingUnique(s: seq<string>, t: seq<string>)
    requires Ascending(s) && Ascending(t) && multiset(s) == multiset(t)
    ensures s == t
    decreases |s|
  {
    hide Less;
    assert |s| == |multiset(s)| == |multiset(t)| == |t|;
    if s != [] {
      assert s[0] in multiset(t) && t[0] in multiset(s);
      var i :| 0 <= i < |t| && t[i] == s[0];
      var j :| 0 <= j < |s| && s[j] == t[0];
      LessTotal(s[0], t[0]);
      assert s[0] == t[0];
      TailMultiset(s);
      TailMultiset(t);
      AscendingUnique(s[1..], t[1..]);
    }
  }

  lemma TailElements(s: seq<string>, x: string)
    requires StrictlyAscending(s) && s != []
    ensures x in Elements(s[1..]) <==> x in Elements(s) && x != s[0]
  {
    if x in s[1..] {
      var k :| 0 <= k < |s[1..]| && s[1..][k] == x;
      LessAsymmetric(s[0], s[k+1]);
    }
    if x in s && x != s[0] {
      var k :| 0 <= k < |s| && s[k] == x;
      assert s[1..][k-1] == x;
    }
  }

  lemma AscendingDistinctIsStrict(s: seq<string>)
    requires Ascending(s) && Distinct(s)
    ensures StrictlyAscending(s)
  {
    forall i, j | 0 <= i < j < |s| ensures Less(s[i], s[j]) {
      LessTotal(s[i], s[j]);
    }
  }

  lemma {:induction false} MultisetDistinct<T>(s: seq<T>, t: seq<T>)
    requires multiset(s) == multiset(t) && Distinct(s)
    ensures Distinct(t) && Elements(s) == Elements(t)
  {
    forall x: T ensures x in s <==> x in t {
      assert x in s <==> x in multiset(s);
      assert x in t <==> x in multiset(t);
    }
    forall i, j | 0 <= i < j < |t| ensures t[i] != t[j] {
      if t[i] == t[j] {
        assert t == t[..i] + [t[i]] + t[i+1..j] + [t[j]] + t[j+1..];
        assert multiset(t)[t[i]] >= 2;
        DistinctMultiplicity(s, t[i]);
      }
    }
  }

  lemma {:induction false} DistinctMultiplicity<T>(s: seq<T>, x: T)
    requires Distinct(s)
    ensures multiset(s)[x] <= 1
  {
    if s != [] {
      assert s == [s[0]] + s[1..];
      DistinctMultiplicity(s[1..], x);
      if s[0] == x { assert x !in s[1..]; }
    }
  }

  lemma InsertSorted(x: string, s: seq<string>)
    requires StrictlyAscending(s) && x !in s
    ensures StrictlyAscending(Insert(x, s)) && Elements(Insert(x, s)) == Elements(s) + {x}
  {
    forall i, j | 0 <= i < j < |s| ensures !Less(s[j], s[i]) && s[i] != s[j] {
      LessAsymmetric(s[i], s[j]);
    }
    InsertAscending(x, s);
    MultisetDistinct([x] + s, Insert(x, s));
    AscendingDistinctIsStrict(Insert(x, s));
  }

  /** The members of a set in ascending order. */
  ghost function SortedList(all: set<string>): (r: seq<string>)
    ensures StrictlyAscending(r) && Elements(r) == all
  {
    if all == {} then []
    else
      var x :| x in all;
      var rest := SortedList(all - {x});
      InsertSorted(x, rest);
      Insert(x, rest)
  }

  lemma SortsTo(s: seq<string>, all: set<string>)
    requires Distinct(s) && Elements(s) == all
    ensures Sort(s) == SortedList(all)
  {
    MultisetDistinct(s, Sort(s));
    AscendingDistinctIsStrict(Sort(s));
    StrictlyAscendingUnique(Sort(s), SortedList(all));
  }

  // ----- Searching, splitting, joining ---------------------------------------------------

  lemma SliceDrop<T>(s: seq<T>, k: nat, i: nat, j: nat)
    requires i <= j && k + j <= |s|
    ensures s[k..][i..j] == s[k + i..k + j] && s[k..][j..] == s[k + j..]
  {
  }

  /** No newline in `s[i..j]`: what `.` of a regular expression matches. */
  predicate OneLine(s: string, i: nat, j: nat)
    requires j <= |s|
  {
    forall k :: i <= k < j ==> s[k] != '\n'
  }

  predicate Free(s: string, c: char)
  {
    forall i :: 0 <= i < |s| ==> s[i] != c
  }

  /** `sep` occurs in `s` at position `i`. */
  predicate At(s: string, sep: string, i: nat)
  {
    i + |sep| <= |s| && s[i..i + |sep|] == sep
  }

  lemma AtChars(s: string, sep: string, i: nat)
    ensures At(s, sep, i) ==> forall k :: 0 <= k < |sep| ==> s[i + k] == sep[k]
  {
    if At(s, sep, i) {
      forall k | 0 <= k < |sep| ensures s[i + k] == sep[k] {
        assert s[i + k] == s[i..i + |sep|][k];
      }
    }
  }

  predicate Contains(s: string, sep: string)
  {
    exists i: nat :: i <= |s| && At(s, sep, i)
  }

  lemma AtTail(s: string, sep: string)
    requires s != []
    ensures forall j: nat :: j > 0 ==> (At(s, sep, j) <==> At(s[1..], sep, j - 1))
  {
    forall j: nat | j > 0 ensures At(s, sep, j) <==> At(s[1..], sep, j - 1) {
      if j + |sep| <= |s| {
        assert s == [s[0]] + s[1..];
        assert s[j..] == s[1..][j - 1..];
        assert s[j..j + |sep|] == s[j..][..|sep|];
        assert s[1..][j - 1..j - 1 + |sep|] == s[1..][j - 1..][..|sep|];
      }
    }
  }

  /** `strings.Index`: the leftmost occurrence. */
  function Index(s: string, sep: string): (r: Option<nat>)
    ensures r.Some? ==> At(s, sep, r.value) && forall j: nat :: j < r.value ==> !At(s, sep, j)
    ensures r.None? ==> forall j: nat :: !At(s, sep, j)
  {
    if At(s, sep, 0) then Some(0)
    else if s == [] then
      None
    else
      AtTail(s, sep);
      match Index(s[1..], sep)
      case None => None
      case Some(i) =>
        assert forall j: nat :: 0 < j < i + 1 ==> !At(s, sep, j);
        Some(i + 1)
  }

  /** `strings.Split` for a non-empty separator. */
  function Split(s: string, sep: string): (r: seq<string>)
    requires sep != []
    ensures r != []
    decreases |s|
  {
    match Index(s, sep)
    case None => [s]
    case Some(i) => [s[..i]] + Split(s[i + |sep|..], sep)
  }

  /** `strings.Join`. */
  function Join(parts: seq<string>, sep: string): string
  {
    if parts == [] then []
    else if |parts| == 1 then parts[0]
    else parts[0] + sep + Join(parts[1..], sep)
  }

  lemma IndexInside(a: string, sep: string)
    requires sep != []
    ensures Index(a, sep).Some? ==> Index(a, sep).value + |sep| <= |a|
  {
  }

  lemma SplitOnce(s: string, sep: string)
    requires sep != []
    ensures Index(s, sep).None? ==> Split(s, sep) == [s]
    ensures Index(s, sep).Some? ==> (
              && Index(s, sep).value + |sep| <= |s|
              && Split(s, sep) == [s[..Index(s, sep).value]] + Split(s[Index(s, sep).value + |sep|..], sep))
  {
    hide Index;
    IndexInside(s, sep);
  }

  lemma JoinTwo(a: string, rest: seq<string>, sep: string)
    requires rest != []
    ensures Join([a] + rest, sep) == a + sep + Join(rest, sep)
  {
    assert ([a] + rest)[1..] == rest;
  }

  lemma {:induction false} JoinSplit(s: string, sep: string)
    requires sep != []
    ensures Join(Split(s, sep), sep) == s
    decreases |s|
  {
    hide Split, Index, Join;
    SplitOnce(s, sep);
    match Index(s, sep)
    case None => JoinSingle(s, sep);
    case Some(i) =>
      IndexAt(s, sep);
      JoinSplit(s[i + |sep|..], sep);
      JoinTwo(s[..i], Split(s[i + |sep|..], sep), sep);
      assert s == s[..i] + s[i..i + |sep|] + s[i + |sep|..];
  }

  lemma JoinSingle(s: string, sep: string)
    ensures Join([s], sep) == s
  {
  }

  lemma IndexAt(s: string, sep: string)
    ensures Index(s, sep).Some? ==>
              Index(s, sep).value + |sep| <= |s| && s[Index(s, sep).value..Index(s, sep).value + |sep|] == sep
  {
  }

  lemma {:induction false} JoinAppend(parts: seq<string>, x: string, sep: string)
    requires parts != []
    ensures Join(parts + [x], sep) == Join(parts, sep) + sep + x
  {
    if |parts| == 1 {
      assert (parts + [x])[1..] == [x];
    } else {
      assert (parts + [x])[1..] == parts[1..] + [x];
      JoinAppend(parts[1..], x, sep);
    }
  }

  /** Splitting stops at the first separator when the text before it cannot start one. */
  lemma SplitFirst(a: string, sep: string, rest: string)
    requires sep != []
    requires forall j: nat :: j < |a| ==> !At(a + sep + rest, sep, j)
    ensures Split(a + sep + rest, sep) == [a] + Split(rest, sep)
  {
    var s := a + sep + rest;
    assert At(s, sep, |a|);
    assert Index(s, sep) == Some(|a|);
    assert s[..|a|] == a;
    assert s[|a| + |sep|..] == rest;
  }

  lemma SplitNone(s: string, sep: string)
    requires sep != []
    requires forall j: nat :: !At(s, sep, j)
    ensures Split(s, sep) == [s]
  {
  }

  // ----- Splitting at one character ------------------------------------------------------

  lemma AtShift(a: string, b: string, c: char, j: nat)
    requires j < |a|
    ensures At(a + b, [c], j) <==> At(a, [c], j)
  {
    assert (a + b)[j..j + 1] == a[j..j + 1];
  }

  lemma AtOne(s: string, c: char, j: nat)
    ensures At(s, [c], j) <==> j < |s| && s[j] == c
  {
    if j < |s| { assert s[j..j + 1] == [s[j]]; }
  }

  lemma {:induction false} SplitAppend(a: string, c: char, b: string)
    ensures Split(a + [c] + b, [c]) == Split(a, [c]) + Split(b, [c])
    decreases |a|
  {
    hide Split, At;
    var s := a + [c] + b;
    assert s == a + ([c] + b);
    match Index(a, [c])
    case None =>
      forall j: nat | j < |a| ensures !At(s, [c], j) {
        AtShift(a, [c] + b, c, j);
      }
      SplitFirst(a, [c], b);
      SplitOnce(a, [c]);
    case Some(i) =>
      IndexAt(a, [c]);
      SplitOnce(a, [c]);
      var rest := a[i + 1..];
      SplitAppend(rest, c, b);
      assert s == a[..i] + [c] + (rest + [c] + b);
      forall j: nat | j < i ensures !At(s, [c], j) {
        AtShift(a, [c] + b, c, j);
      }
      SplitFirst(a[..i], [c], rest + [c] + b);
  }

  lemma SplitFree(s: string, c: char)
    requires Free(s, c)
    ensures Split(s, [c]) == [s]
  {
    hide Split, At;
    forall j: nat ensures !At(s, [c], j) {
      AtOne(s, c, j);
    }
    SplitNone(s, [c]);
  }

  /** No part holds a character that the whole does not. */
  lemma {:induction false} SplitKeepsFree(s: string, sep: string, c: char)
    requires sep != [] && Free(s, c)
    ensures forall part :: part in Split(s, sep) ==> Free(part, c)
    decreases |s|
  {
    hide Split, Index;
    SplitOnce(s, sep);
    match Index(s, sep)
    case None =>
    case Some(i) =>
      IndexAt(s, sep);
      SplitKeepsFree(s[i + |sep|..], sep, c);
  }

  // ----- Decimal numbers -----------------------------------------------------------------

  const DIGITS := "0123456789"

  predicate IsDigit(c: char)
  {
    '0' <= c <= '9'
  }

  predicate AllDigits(s: string)
  {
    forall i :: 0 <= i < |s| ==> IsDigit(s[i])
  }

  function DigitValue(c: char): (d: nat)
    requires IsDigit(c)
    ensures d < 10
  {
    c as int - '0' as int
  }

  function DigitChar(d: nat): (c: char)
    requires d < 10
    ensures IsDigit(c) && DigitValue(c) == d
  {
    DIGITS[d]
  }

  /** Printing a natural number with `%d`. */
  function Decimal(n: nat): (s: string)
    ensures s != [] && AllDigits(s)
    ensures |s| > 1 ==> s[0] != '0'
    ensures |s| == 1 <==> n < 10
    ensures n > 0 ==> s[0] != '0'
  {
    if n < 10 then [DigitChar(n)] else Decimal(n / 10) + [DigitChar(n % 10)]
  }

  lemma DecimalFree(n: nat, c: char)
    requires !IsDigit(c)
    ensures Free(Decimal(n), c)
  {
  }

  /** Printing an integer with `%d`. */
  function Itoa(n: int): string
  {
    if n < 0 then "-" + Decimal(-n) else Decimal(n)
  }

  function DigitsValue(s: string): nat
    requires AllDigits(s)
  {
    if s == [] then 0 else 10 * DigitsValue(s[..|s|-1]) + DigitValue(s[|s|-1])
  }

  /** `strconv.ParseUint` before its range check. */
  function ParseDigits(s: string): Option<nat>
  {
    if s != [] && AllDigits(s) then Some(DigitsValue(s)) else None
  }

  const MAX_INT64 := 0x7FFF_FFFF_FFFF_FFFF
  const MIN_INT64 := -0x8000_0000_0000_0000

  /** `strconv.Atoi`: an optional sign, digits, and a 64-bit range check. */
  function Atoi(s: string): Option<int>
  {
    var digits := if s != [] && (s[0] == '+' || s[0] == '-') then s[1..] else s;
    match ParseDigits(digits)
    case None => None
    case Some(n) =>
      var magnitude: int := n;
      var v := if s[0] == '-' then -magnitude else magnitude;
      if MIN_INT64 <= v <= MAX_INT64 then Some(v) else None
  }

  lemma {:induction false} ParseDecimal(n: nat)
    ensures ParseDigits(Decimal(n)) == Some(n)
  {
    if n >= 10 {
      ParseDecimal(n / 10);
      var s := Decimal(n);
      assert s[..|s|-1] == Decimal(n / 10);
    } else {
      var s := Decimal(n);
      assert |s| == 1 && s[..|s|-1] == [];
      assert DigitsValue(s) == 10 * DigitsValue([]) + n;
    }
  }

  /** Reading back a printed number. */
  lemma AtoiDecimal(n: nat)
    ensures Atoi(Decimal(n)) == if n <= MAX_INT64 then Some(n) else None
  {
    ParseDecimal(n);
    assert IsDigit(Decimal(n)[0]);
  }
}
