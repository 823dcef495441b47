/**
 Semantic versions as pkg/git and pkg/gomod read and print them, with the parser of
 github.com/blang/semver/v4 (vendored). Numbers are unsigned and 64 bits wide.
 */
module SemVer {
  import opened Text

  const MAX_UINT64 := 0xFFFF_FFFF_FFFF_FFFF

  /** An identifier of a pre-release: a number or a word. */
  datatype PreId = Number(n: nat) | Word(w: string)

  datatype Version = Version(major: nat, minor: nat, patch: nat, pre: seq<PreId>, build: seq<string>)

  /** Major, minor and patch alone. */
  function Plain(major: nat, minor: nat, patch: nat): Version
  {
    Version(major, minor, patch, [], [])
  }

  const ZERO := Plain(0, 0, 0)

  predicate IsPlain(v: Version)
  {
    v.pre == [] && v.build == []
  }

  predicate InRange(v: Version)
  {
    v.major <= MAX_UINT64 && v.minor <= MAX_UINT64 && v.patch <= MAX_UINT64
  }

  // ----- Precedence ----------------------------------------------------------------------

  predicate PreIdLess(a: PreId, b: PreId)
  {
    match (a, b)
    case (Number(m), Number(n)) => m < n
    case (Number(_), Word(_)) => true
    case (Word(_), Number(_)) => false
    case (Word(v), Word(w)) => Less(v, w)
  }

  predicate PreLess(a: seq<PreId>, b: seq<PreId>)
  {
    if b == [] then false
    else if a == [] then true
    else PreIdLess(a[0], b[0]) || (a[0] == b[0] && PreLess(a[1..], b[1..]))
  }

  /** `Version.LT`. */
  predicate Lower(v: Version, o: Version)
  {
    if v.major != o.major then v.major < o.major
    else if v.minor != o.minor then v.minor < o.minor
    else if v.patch != o.patch then v.patch < o.patch
    else if v.pre == [] || o.pre == [] then v.pre != [] && o.pre == []
    else PreLess(v.pre, o.pre)
  }

  // ----- Parsing -------------------------------------------------------------------------

  /** The first `c` in `s`. */
  function Find(s: string, c: char): (r: Option<nat>)
    ensures r.Some? ==> r.value < |s| && s[r.value] == c && Free(s[..r.value], c)
    ensures r.None? ==> Free(s, c)
  {
    if s == "" then None
    else if s[0] == c then Some(0)
    else
      match Find(s[1..], c)
      case None => None
      case Some(i) =>
        assert s[..i + 1] == [s[0]] + s[1..][..i];
        Some(i + 1)
  }

  /** `strings.SplitN` at a single character. */
  function SplitN(s: string, c: char, n: nat): (r: seq<string>)
    requires n > 0
    ensures 0 < |r| <= n
  {
    if n == 1 then [s]
    else
      match Find(s, c)
      case None => [s]
      case Some(i) => [s[..i]] + SplitN(s[i + 1..], c, n - 1)
  }

  /** A number without leading zeros, in range. */
  function Numeral(s: string): Option<nat>
  {
    if !AllDigits(s) || (|s| > 1 && s[0] == '0') then None
    else
      match ParseDigits(s)
      case None => None
      case Some(n) => if n <= MAX_UINT64 then Some(n) else None
  }

  predicate IsAlphanum(c: char)
  {
    IsDigit(c) || 'a' <= c <= 'z' || 'A' <= c <= 'Z' || c == '-'
  }

  predicate IsIdentifier(s: string)
  {
    s != "" && forall k :: 0 <= k < |s| ==> IsAlphanum(s[k])
  }

  function ParsePreId(s: string): Option<PreId>
  {
    if s != "" && AllDigits(s) then
      match Numeral(s)
      case None => None
      case Some(n) => Some(Number(n))
    else if IsIdentifier(s) then Some(Word(s))
    else None
  }

  function ParsePre(parts: seq<string>): Option<seq<PreId>>
  {
    if parts == [] then Some([])
    else
      match (ParsePreId(parts[0]), ParsePre(parts[1..]))
      case (Some(id), Some(rest)) => Some([id] + rest)
      case _ => None
  }

  /** The dotted list behind `c`, and the text before it. */
  function TakeSuffix(s: string, c: char): (string, seq<string>)
  {
    match Find(s, c)
    case None => (s, [])
    case Some(i) => (s[..i], Split(s[i + 1..], "."))
  }

  /** `semver.Parse`. */
  function Parse(s: string): Option<Version>
  {
    var parts := SplitN(s, '.', 3);
    if |parts| != 3 then None
    else
      var (core, build) := TakeSuffix(parts[2], '+');
      var (patch, pre) := TakeSuffix(core, '-');
      match (Numeral(parts[0]), Numeral(parts[1]), Numeral(patch), ParsePre(pre))
      case (Some(a), Some(b), Some(c), Some(ids)) =>
        if forall k :: 0 <= k < |build| ==> IsIdentifier(build[k]) then Some(Version(a, b, c, ids, build)) else None
      case _ => None
  }

  /** `v, _ := semver.Make(s)`: the error is dropped, and what is left is version 0.0.0. */
  function Make(s: string): Version
  {
    match Parse(s)
    case Some(v) => v
    case None => ZERO
  }

  predicate IsSpace(c: char)
  {
    c == ' ' || '\t' <= c <= '\r'
  }

  function TrimLeft(s: string): string
  {
    if s != "" && IsSpace(s[0]) then TrimLeft(s[1..]) else s
  }

  function TrimRight(s: string): string
  {
    if s != "" && IsSpace(s[|s|-1]) then TrimRight(s[..|s|-1]) else s
  }

  function DropZeros(s: string): string
  {
    if s != "" && s[0] == '0' then DropZeros(s[1..]) else s
  }

  /** One part of a version without its leading zeros. */
  function Normal(p: string): string
  {
    if |p| <= 1 then p
    else
      var q := DropZeros(p);
      if q == "" || !IsDigit(q[0]) then "0" + q else q
  }

  function FillUp(parts: seq<string>): seq<string>
    decreases 3 - |parts|
  {
    if |parts| < 3 then FillUp(parts + ["0"]) else parts
  }

  /** `semver.ParseTolerant`. */
  function ParseTolerant(s: string): Option<Version>
  {
    var t := TrimRight(TrimLeft(s));
    var u := if t != "" && t[0] == 'v' then t[1..] else t;
    var split := SplitN(u, '.', 3);
    var parts := seq(|split|, i requires 0 <= i < |split| => Normal(split[i]));
    if |parts| < 3 && (Find(parts[|parts|-1], '+').Some? || Find(parts[|parts|-1], '-').Some?) then None
    else Parse(Join(FillUp(parts), "."))
  }

  // ----- Printing ------------------------------------------------------------------------

  function Print(major: nat, minor: nat, patch: nat): string
  {
    Decimal(major) + "." + Decimal(minor) + "." + Decimal(patch)
  }

  lemma {:induction false} CanonicalDigits(s: string)
    requires s != "" && AllDigits(s) && (|s| > 1 ==> s[0] != '0')
    ensures Decimal(DigitsValue(s)) == s
    ensures |s| > 1 ==> DigitsValue(s) >= 10
  {
    var front, last := s[..|s|-1], s[|s|-1];
    if |s| == 1 {
      assert DigitsValue(front) == 0;
      assert s == [last];
      DigitBack(last);
    } else {
      CanonicalDigits(front);
      var v, d := DigitsValue(front), DigitValue(last);
      if |front| == 1 { FirstDigit(front); }
      assert DigitsValue(s) == 10 * v + d;
      assert (10 * v + d) / 10 == v && (10 * v + d) % 10 == d;
      DigitBack(last);
      assert s == front + [last];
    }
  }

  lemma DigitBack(c: char)
    requires IsDigit(c)
    ensures DigitChar(DigitValue(c)) == c
  {
  }

  lemma FirstDigit(s: string)
    requires |s| == 1 && AllDigits(s) && s[0] != '0'
    ensures DigitsValue(s) >= 1
  {
    assert DigitsValue(s[..0]) == 0;
  }

  /** A numeral is the printed form of its number. */
  lemma NumeralIff(s: string, n: nat)
    ensures Numeral(s) == Some(n) <==> s == Decimal(n) && n <= MAX_UINT64
  {
    ParseDecimal(n);
    if Numeral(s) == Some(n) { CanonicalDigits(s); }
  }

  lemma FindAt(a: string, c: char, rest: string)
    requires Free(a, c)
    ensures Find(a + [c] + rest, c) == Some(|a|)
  {
    var s := a + [c] + rest;
    assert s[|a|] == c;
    if a != "" {
      assert s[1..] == a[1..] + [c] + rest;
      FindAt(a[1..], c, rest);
    }
  }

  lemma FindFree(s: string, c: char)
    requires Free(s, c)
    ensures Find(s, c) == None
  {
  }

  lemma SplitTwice(a: string, b: string, rest: string)
    requires Free(a, '.') && Free(b, '.')
    ensures SplitN(a + "." + b + "." + rest, '.', 3) == [a, b, rest]
  {
    hide Find, Free;
    var s := a + "." + b + "." + rest;
    var tail := b + "." + rest;
    assert s == a + "." + tail;
    FindAt(a, '.', tail);
    FindAt(b, '.', rest);
    assert s[..|a|] == a && s[|a| + 1..] == tail && tail[..|b|] == b && tail[|b| + 1..] == rest;
    assert SplitN(rest, '.', 1) == [rest];
    assert SplitN(tail, '.', 2) == [b] + [rest];
    assert SplitN(s, '.', 3) == [a] + ([b] + [rest]);
  }

  /** A printed version is read back. */
  lemma ParsePrinted(major: nat, minor: nat, patch: nat)
    ensures Parse(Print(major, minor, patch)) ==
            if InRange(Plain(major, minor, patch)) then Some(Plain(major, minor, patch)) else None
  {
    hide Numeral, SplitN, Find, Free, Decimal;
    DecimalFree(major, '.');
    DecimalFree(minor, '.');
    SplitTwice(Decimal(major), Decimal(minor), Decimal(patch));
    DecimalFree(patch, '+');
    DecimalFree(patch, '-');
    FindFree(Decimal(patch), '+');
    FindFree(Decimal(patch), '-');
    NumeralDecimal(major);
    NumeralDecimal(minor);
    NumeralDecimal(patch);
  }

  lemma NumeralDecimal(n: nat)
    ensures Numeral(Decimal(n)) == if n <= MAX_UINT64 then Some(n) else None
  {
    NumeralIff(Decimal(n), n);
    ParseDecimal(n);
  }

  lemma {:induction false} SplitNJoin(s: string, n: nat)
    requires n > 0
    ensures Join(SplitN(s, '.', n), ".") == s
  {
    hide Find, Join;
    if n == 1 || Find(s, '.').None? {
      JoinSingle(s, ".");
    } else {
      FindSplits(s, '.');
      var i := Find(s, '.').value;
      SplitNJoin(s[i + 1..], n - 1);
      JoinTwo(s[..i], SplitN(s[i + 1..], '.', n - 1), ".");
    }
  }

  lemma FindSplits(s: string, c: char)
    ensures Find(s, c).Some? ==> Find(s, c).value < |s| && s == s[..Find(s, c).value] + [c] + s[Find(s, c).value + 1..]
  {
  }

  lemma JoinThree(a: string, b: string, c: string)
    ensures Join([a, b, c], ".") == a + "." + b + "." + c
  {
    JoinTwo(b, [c], ".");
    JoinTwo(a, [b, c], ".");
    assert [b] + [c] == [b, c] && [a] + [b, c] == [a, b, c];
    JoinSingle(c, ".");
    assert a + "." + (b + "." + c) == a + "." + b + "." + c;
  }

  lemma SplitThree(s: string)
    requires |SplitN(s, '.', 3)| == 3
    ensures var p := SplitN(s, '.', 3); s == p[0] + "." + p[1] + "." + p[2]
  {
    hide SplitN, Join;
    var p := SplitN(s, '.', 3);
    SplitNJoin(s, 3);
    assert p == [p[0], p[1], p[2]];
    JoinThree(p[0], p[1], p[2]);
  }

  /** No other text is read as a plain version. */
  lemma PlainIff(s: string, major: nat, minor: nat, patch: nat)
    ensures Parse(s) == Some(Plain(major, minor, patch))
       <==> s == Print(major, minor, patch) && InRange(Plain(major, minor, patch))
  {
    hide Numeral, SplitN, Free, Decimal;
    ParsePrinted(major, minor, patch);
    if Parse(s) == Some(Plain(major, minor, patch)) {
      SplitThree(s);
      var p := SplitN(s, '.', 3);
      PlainSuffix(p[2]);
      NumeralIff(p[0], major);
      NumeralIff(p[1], minor);
      NumeralIff(p[2], patch);
    }
  }

  lemma PlainSuffix(s: string)
    ensures TakeSuffix(s, '+').1 == [] ==> TakeSuffix(s, '+').0 == s
    ensures ParsePre(TakeSuffix(s, '-').1) == Some([]) ==> TakeSuffix(s, '-').0 == s
  {
    hide Split, Find;
  }

  lemma ParsedInRange(s: string)
    ensures Parse(s).Some? ==> InRange(Parse(s).value)
  {
    hide SplitN, Find, ParsePre, TakeSuffix;
  }

  // ----- The tolerant parser on printed versions -----------------------------------------

  lemma NormalDecimal(n: nat)
    ensures Normal(Decimal(n)) == Decimal(n)
  {
    var s := Decimal(n);
    if |s| > 1 { assert DropZeros(s) == s; }
  }

  lemma NothingTrimmed(s: string)
    requires s != "" && !IsSpace(s[0]) && !IsSpace(s[|s|-1])
    ensures TrimRight(TrimLeft(s)) == s
  {
  }

  lemma PrintedEnds(major: nat, minor: nat, patch: nat)
    ensures var u := Print(major, minor, patch); u != "" && IsDigit(u[|u|-1])
  {
    var c := Decimal(patch);
    assert Print(major, minor, patch)[|Print(major, minor, patch)|-1] == c[|c|-1];
  }

  /** The parts of a printed version, and how they fit together again. */
  lemma NormalParts(major: nat, minor: nat, patch: nat)
    ensures var split := SplitN(Print(major, minor, patch), '.', 3);
      var parts := seq(|split|, i requires 0 <= i < |split| => Normal(split[i]));
      |parts| == 3 && FillUp(parts) == parts && Join(parts, ".") == Print(major, minor, patch)
  {
    var a, b, c := Decimal(major), Decimal(minor), Decimal(patch);
    hide SplitN, Decimal, Join, Normal, Free;
    DecimalFree(major, '.');
    DecimalFree(minor, '.');
    SplitTwice(a, b, c);
    NormalDecimal(major);
    NormalDecimal(minor);
    NormalDecimal(patch);
    var split := SplitN(Print(major, minor, patch), '.', 3);
    var parts := seq(|split|, i requires 0 <= i < |split| => Normal(split[i]));
    assert parts == [a, b, c];
    JoinThree(a, b, c);
  }

  lemma TolerantPrinted(major: nat, minor: nat, patch: nat)
    ensures ParseTolerant("v" + Print(major, minor, patch)) == Parse(Print(major, minor, patch))
  {
    hide Print, TrimLeft, TrimRight, SplitN, Find, Parse, Join, Normal, FillUp;
    var u := Print(major, minor, patch);
    var s := "v" + u;
    PrintedEnds(major, minor, patch);
    assert s[|s|-1] == u[|u|-1];
    NothingTrimmed(s);
    assert s[1..] == u;
    NormalParts(major, minor, patch);
  }

  /** The usual way to name a release, `v1.2`, is read as its first version. */
  lemma TolerantShort(major: nat, minor: nat)
    ensures ParseTolerant("v" + Decimal(major) + "." + Decimal(minor)) == Parse(Print(major, minor, 0))
  {
    hide TrimLeft, TrimRight, SplitN, Find, Free, Parse, Join, Normal, Decimal;
    var a, b := Decimal(major), Decimal(minor);
    var u := a + "." + b;
    var s := "v" + a + "." + b;
    ShortEnds(a, minor);
    assert s == "v" + u && s[1..] == u && s[|s|-1] == u[|u|-1];
    NothingTrimmed(s);
    DecimalFree(major, '.');
    DecimalFree(minor, '.');
    DecimalFree(minor, '+');
    DecimalFree(minor, '-');
    FindFree(b, '+');
    FindFree(b, '-');
    SplitShort(a, b);
    NormalDecimal(major);
    NormalDecimal(minor);
    var split := SplitN(u, '.', 3);
    var parts := seq(|split|, i requires 0 <= i < |split| => Normal(split[i]));
    assert parts == [a, b];
    assert parts + ["0"] == [a, b, "0"];
    assert FillUp(parts) == [a, b, "0"];
    JoinThree(a, b, "0");
    ZeroText();
  }

  lemma ZeroText()
    ensures Decimal(0) == "0"
  {
  }

  lemma ShortEnds(a: string, minor: nat)
    ensures var u := a + "." + Decimal(minor); u != "" && IsDigit(u[|u|-1])
  {
    var b := Decimal(minor);
    assert (a + "." + b)[|a + "." + b|-1] == b[|b|-1];
  }

  lemma SplitShort(a: string, b: string)
    requires Free(a, '.') && Free(b, '.')
    ensures SplitN(a + "." + b, '.', 3) == [a, b]
  {
    hide Find, Free;
    var s := a + "." + b;
    FindAt(a, '.', b);
    FindFree(b, '.');
    assert s[..|a|] == a && s[|a| + 1..] == b;
    assert SplitN(b, '.', 2) == [b];
    assert SplitN(s, '.', 3) == [a] + [b];
  }
}
