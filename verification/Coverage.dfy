/**
 Coverage of code blocks summed up by file and by group, and compared with an earlier run
 (tools/coverage/calc).
 */
module Coverage {
  import opened Text

  datatype Block = Block(fileName: string, numStatements: int, coverageCount: int)

  datatype FileCov = FileCov(name: string, nCoveredStmts: int, nAllStmts: int)

  function NewCoverage(name: string): FileCov
  {
    FileCov(name, 0, 0)
  }

  /** `Ratio`; None where there are no statements. */
  function Ratio(covered: int, all: int): Option<real>
  {
    if all == 0 then None else Some(covered as real / all as real)
  }

  // ----- Reference sums ------------------------------------------------------------------

  /** All and covered statements of the blocks whose file is chosen. A block is covered as a whole, if it
      was entered at all. */
  function BlockSums(blocks: seq<Block>, chosen: string -> bool): (int, int)
  {
    if blocks == [] then (0, 0)
    else
      var (all, covered) := BlockSums(blocks[..|blocks|-1], chosen);
      var b := blocks[|blocks|-1];
      if !chosen(b.fileName) then (all, covered)
      else (all + b.numStatements, if b.coverageCount > 0 then covered + b.numStatements else covered)
  }

  /** The same for the files of a group. */
  function GroupSums(group: seq<FileCov>, chosen: string -> bool): (int, int)
  {
    if group == [] then (0, 0)
    else
      var (all, covered) := GroupSums(group[..|group|-1], chosen);
      var c := group[|group|-1];
      if chosen(c.name) then (all + c.nAllStmts, covered + c.nCoveredStmts) else (all, covered)
  }

  function Sums(group: seq<FileCov>): (int, int)
  {
    GroupSums(group, (_: string) => true)
  }

  /** What `Summarize` makes of the totals of statements and covered statements. */
  function Summarized(group: seq<FileCov>, totals: (int, int)): (int, int)
  {
    (totals.0 + Sums(group).0, totals.1 + Sums(group).1)
  }

  // ----- Building a group ----------------------------------------------------------------

  function AddBlock(c: FileCov, b: Block): FileCov
  {
    FileCov(c.name, c.nCoveredStmts + (if b.coverageCount > 0 then b.numStatements else 0),
            c.nAllStmts + b.numStatements)
  }

  function Added(group: seq<FileCov>, b: Block): seq<FileCov>
  {
    if group == [] || group[|group|-1].name != b.fileName then group + [AddBlock(NewCoverage(b.fileName), b)]
    else group[|group|-1 := AddBlock(group[|group|-1], b)]
  }

  function Grouped(blocks: seq<Block>): seq<FileCov>
  {
    if blocks == [] then [] else Added(Grouped(blocks[..|blocks|-1]), blocks[|blocks|-1])
  }

  class CoverageList {
    var nCoveredStmts: int
    var nAllStmts: int
    var group: seq<FileCov>
    const concernedFiles: map<string, bool>
    const covThresholdInt: int

    constructor (concernedFiles: map<string, bool>, covThresholdInt: int)
      ensures nCoveredStmts == 0 && nAllStmts == 0 && group == []
      ensures this.concernedFiles == concernedFiles && this.covThresholdInt == covThresholdInt
    {
      nCoveredStmts, nAllStmts, group := 0, 0, [];
      this.concernedFiles, this.covThresholdInt := concernedFiles, covThresholdInt;
    }

    /** `addToGroupCov`. */
    method AddToGroupCov(blk: Block)
      modifies this`group
      ensures group == Added(old(group), blk)
    {
      if |group| == 0 || group[|group|-1].name != blk.fileName {
        group := group + [NewCoverage(blk.fileName)];
      }
      var last := |group| - 1;
      group := group[last := group[last].(nAllStmts := group[last].nAllStmts + blk.numStatements)];
      if blk.coverageCount > 0 {
        group := group[last := group[last].(nCoveredStmts := group[last].nCoveredStmts + blk.numStatements)];
      }
    }

    /** `Summarize` adds to what is there: calling it again adds everything again. */
    method Summarize()
      modifies this`nCoveredStmts, this`nAllStmts
      ensures (nAllStmts, nCoveredStmts) == Summarized(group, old((nAllStmts, nCoveredStmts)))
    {
      for i := 0 to |group|
        invariant (nAllStmts, nCoveredStmts)
               == (old(nAllStmts) + Sums(group[..i]).0, old(nCoveredStmts) + Sums(group[..i]).1)
      {
        assert group[..i + 1][..i] == group[..i];
        nCoveredStmts := nCoveredStmts + group[i].nCoveredStmts;
        nAllStmts := nAllStmts + group[i].nAllStmts;
      }
      assert group[..|group|] == group;
    }

    method Subset(prefix: string) returns (s: CoverageList)
      ensures fresh(s) && s.group == Filter(group, (n: string) => prefix <= n)
      ensures forall c :: c in s.group <==> c in group && prefix <= c.name
      ensures (s.nAllStmts, s.nCoveredStmts) == GroupSums(group, (n: string) => prefix <= n)
    {
      s := new CoverageList(concernedFiles, covThresholdInt);
      ghost var chosen := (n: string) => prefix <= n;
      for i := 0 to |group|
        invariant fresh(s) && s.group == Filter(group[..i], chosen) && s.nAllStmts == 0 && s.nCoveredStmts == 0
      {
        assert group[..i + 1][..i] == group[..i];
        if prefix <= group[i].name {
          s.group := s.group + [group[i]];
        }
      }
      assert group[..|group|] == group;
      s.Summarize();
      FilterSums(group, chosen);
      FilterIs(group, chosen);
    }

    /** `Map`: of several entries of a name, the last one. */
    method Map() returns (m: map<string, FileCov>)
      ensures m == ByName(group)
    {
      m := map[];
      for i := 0 to |group|
        invariant m == ByName(group[..i])
      {
        assert group[..i + 1][..i] == group[..i];
        m := m[group[i].name := group[i]];
      }
      assert group[..|group|] == group;
    }
  }

  function Filter(group: seq<FileCov>, chosen: string -> bool): seq<FileCov>
  {
    if group == [] then []
    else
      Filter(group[..|group|-1], chosen) + if chosen(group[|group|-1].name) then [group[|group|-1]] else []
  }

  lemma {:induction false} FilterIs(group: seq<FileCov>, chosen: string -> bool)
    ensures forall c :: c in Filter(group, chosen) <==> c in group && chosen(c.name)
  {
    if group != [] {
      FilterIs(group[..|group|-1], chosen);
      assert group == group[..|group|-1] + [group[|group|-1]];
    }
  }

  lemma SumsStep(group: seq<FileCov>, c: FileCov, chosen: string -> bool)
    ensures var (all, covered) := GroupSums(group, chosen);
      GroupSums(group + [c], chosen)
        == if chosen(c.name) then (all + c.nAllStmts, covered + c.nCoveredStmts) else (all, covered)
  {
    assert (group + [c])[..|group|] == group;
  }

  lemma FilterStep(group: seq<FileCov>, c: FileCov, chosen: string -> bool)
    ensures Filter(group + [c], chosen) == Filter(group, chosen) + if chosen(c.name) then [c] else []
  {
    assert (group + [c])[..|group|] == group;
  }

  lemma {:induction false} FilterSums(group: seq<FileCov>, chosen: string -> bool)
    ensures Sums(Filter(group, chosen)) == GroupSums(group, chosen)
  {
    if group == [] {
    } else {
      var front, c := group[..|group|-1], group[|group|-1];
      hide GroupSums, Filter;
      FilterSums(front, chosen);
      assert group == front + [c];
      FilterStep(front, c, chosen);
      SumsStep(front, c, chosen);
      SumsStep(Filter(front, chosen), c, (_: string) => true);
      assert Filter(front, chosen) + [] == Filter(front, chosen);
    }
  }

  /** Which blocks count: in a presubmit run those of the files given, else those not skipped. */
  predicate Concerned(files: Option<map<string, bool>>, skipped: string -> bool, path: string)
  {
    match files
    case Some(m) => path in m && m[path]
    case None => !skipped(path)
  }

  function Kept(blocks: seq<Block>, concerned: string -> bool): seq<Block>
  {
    if blocks == [] then []
    else
      var last := blocks[|blocks|-1];
      Kept(blocks[..|blocks|-1], concerned) + if concerned(last.fileName) then [last] else []
  }

  /** What the table of concerned files holds so far. */
  ghost predicate Known(files: Option<map<string, bool>>, skipped: string -> bool, m: map<string, bool>)
  {
    match files
    case Some(given) => m == given
    case None => forall p :: p in m ==> m[p] == !skipped(p)
  }

  /** `updateConcernedFiles`: outside of presubmit runs the table is filled on the way. */
  method UpdateConcernedFiles(concernedFiles: map<string, bool>, path: string, isPresubmit: bool,
                              ghost files: Option<map<string, bool>>, skipped: string -> bool)
    returns (isConcerned: bool, m: map<string, bool>)
    requires Known(files, skipped, concernedFiles) && (isPresubmit <==> files.Some?)
    ensures isConcerned == Concerned(files, skipped, path) && Known(files, skipped, m)
    ensures if isPresubmit then m == concernedFiles else m == concernedFiles[path := isConcerned]
  {
    m := concernedFiles;
    if path in concernedFiles {
      isConcerned := concernedFiles[path];
      assert concernedFiles[path := isConcerned] == concernedFiles;
      return;
    }
    if isPresubmit {
      return false, m;
    }
    isConcerned := !skipped(path);
    m := m[path := isConcerned];
  }

  /** The loop of `CovList`; `path` turns the file of a block into its path in the repository. */
  method CovList(blocks: seq<Block>, path: string -> string, files: Option<map<string, bool>>,
                 skipped: string -> bool, covThresInt: int)
    returns (g: CoverageList, keyProfile: seq<Block>)
    ensures fresh(g)
    ensures keyProfile == Kept(blocks, n => Concerned(files, skipped, path(n)))
    ensures forall b :: b in keyProfile <==>
                b in blocks && var p := path(b.fileName);
                match files
                case Some(m) => p in m && m[p]
                case None => !skipped(p)
    ensures g.group == Grouped(keyProfile) && g.nAllStmts == 0 && g.nCoveredStmts == 0
  {
    var isPresubmit := files.Some?;
    var concernedFiles := if isPresubmit then files.value else map[];
    ghost var concerned := n => Concerned(files, skipped, path(n));
    g := new CoverageList(concernedFiles, covThresInt);
    keyProfile := [];
    for i := 0 to |blocks|
      invariant fresh(g) && g.nAllStmts == 0 && g.nCoveredStmts == 0
      invariant Known(files, skipped, concernedFiles)
      invariant keyProfile == Kept(blocks[..i], concerned) && g.group == Grouped(keyProfile)
    {
      assert blocks[..i + 1][..i] == blocks[..i];
      var isConcerned;
      var file := path(blocks[i].fileName);
      isConcerned, concernedFiles := UpdateConcernedFiles(concernedFiles, file, isPresubmit, files, skipped);
      if isConcerned {
        g.AddToGroupCov(blocks[i]);
        keyProfile := keyProfile + [blocks[i]];
        assert keyProfile[..|keyProfile|-1] == Kept(blocks[..i], concerned);
      }
    }
    assert blocks[..|blocks|] == blocks;
    KeptIs(blocks, concerned);
  }

  lemma {:induction false} KeptIs(blocks: seq<Block>, concerned: string -> bool)
    ensures forall b :: b in Kept(blocks, concerned) <==> b in blocks && concerned(b.fileName)
  {
    if blocks != [] {
      KeptIs(blocks[..|blocks|-1], concerned);
      assert blocks == blocks[..|blocks|-1] + [blocks[|blocks|-1]];
    }
  }

  // ----- Conservation --------------------------------------------------------------------

  lemma AddedSums(group: seq<FileCov>, b: Block, chosen: string -> bool)
    ensures var (all, covered) := GroupSums(group, chosen);
      GroupSums(Added(group, b), chosen)
        == if !chosen(b.fileName) then (all, covered)
           else (all + b.numStatements, if b.coverageCount > 0 then covered + b.numStatements else covered)
  {
    var r := Added(group, b);
    if group == [] || group[|group|-1].name != b.fileName {
      assert r[..|r|-1] == group;
    } else {
      assert r[..|r|-1] == group[..|group|-1];
    }
  }

  /** Whatever files are chosen, one, all, or those of a directory, and whatever the order of the
      blocks: no statement is lost or counted twice. */
  lemma {:induction false} StatementsConserved(blocks: seq<Block>, chosen: string -> bool)
    ensures GroupSums(Grouped(blocks), chosen) == BlockSums(blocks, chosen)
  {
    if blocks != [] {
      StatementsConserved(blocks[..|blocks|-1], chosen);
      AddedSums(Grouped(blocks[..|blocks|-1]), blocks[|blocks|-1], chosen);
    }
  }

  /** Only blocks of concerned files count. */
  lemma {:induction false} KeptSums(blocks: seq<Block>, concerned: string -> bool, chosen: string -> bool)
    ensures BlockSums(Kept(blocks, concerned), chosen) == BlockSums(blocks, n => concerned(n) && chosen(n))
  {
    if blocks != [] {
      var front, last := blocks[..|blocks|-1], blocks[|blocks|-1];
      KeptSums(front, concerned, chosen);
      var k := Kept(front, concerned);
      if concerned(last.fileName) {
        assert (k + [last])[..|k|] == k;
      } else {
        assert k + [] == k;
      }
    }
  }

  /** No file and no group has more covered statements than statements. */
  lemma {:induction false} CoveredWithinAll(blocks: seq<Block>, chosen: string -> bool)
    requires forall i :: 0 <= i < |blocks| ==> blocks[i].numStatements >= 0
    ensures 0 <= BlockSums(blocks, chosen).1 <= BlockSums(blocks, chosen).0
    ensures forall i :: 0 <= i < |Grouped(blocks)| ==>
        0 <= Grouped(blocks)[i].nCoveredStmts <= Grouped(blocks)[i].nAllStmts
  {
    if blocks != [] { CoveredWithinAll(blocks[..|blocks|-1], chosen); }
  }

  /** The blocks of each file are next to each other. */
  ghost predicate Contiguous(blocks: seq<Block>)
  {
    forall i, j, k :: 0 <= i < j < k < |blocks| && blocks[i].fileName == blocks[k].fileName ==>
      blocks[j].fileName == blocks[i].fileName
  }

  function Names(group: seq<FileCov>): (r: seq<string>)
    ensures |r| == |group| && forall i :: 0 <= i < |group| ==> r[i] == group[i].name
  {
    seq(|group|, i requires 0 <= i < |group| => group[i].name)
  }

  ghost predicate Mentions(blocks: seq<Block>, name: string)
  {
    exists i :: 0 <= i < |blocks| && blocks[i].fileName == name
  }

  lemma {:induction false} GroupedNames(blocks: seq<Block>)
    ensures blocks != [] ==> Grouped(blocks) != []
                             && Grouped(blocks)[|Grouped(blocks)|-1].name == blocks[|blocks|-1].fileName
    ensures forall n :: n in Names(Grouped(blocks)) <==> Mentions(blocks, n)
  {
    if blocks != [] {
      var front, last := blocks[..|blocks|-1], blocks[|blocks|-1];
      GroupedNames(front);
      var f, g := Grouped(front), Grouped(blocks);
      assert forall i :: 0 <= i < |f| ==> g[i].name == f[i].name;
      forall n ensures n in Names(g) <==> n in Names(f) || n == last.fileName {
        assert forall i :: 0 <= i < |f| ==> Names(g)[i] == Names(f)[i];
        assert Names(g)[|g|-1] == last.fileName;
      }
      forall n ensures Mentions(blocks, n) <==> Mentions(front, n) || n == last.fileName {
        assert blocks == front + [last];
        if i :| 0 <= i < |front| && front[i].fileName == n { assert blocks[i].fileName == n; }
        assert blocks[|blocks|-1].fileName == last.fileName;
      }
    }
  }

  lemma ContiguousFront(blocks: seq<Block>)
    requires blocks != []
    ensures var front, last := blocks[..|blocks|-1], blocks[|blocks|-1];
      Contiguous(blocks) <==>
        Contiguous(front) && (Mentions(front, last.fileName) ==> front[|front|-1].fileName == last.fileName)
  {
    var front, last := blocks[..|blocks|-1], blocks[|blocks|-1];
    assert forall i :: 0 <= i < |front| ==> front[i] == blocks[i];
    if Contiguous(blocks) && Mentions(front, last.fileName) {
      var i :| 0 <= i < |front| && front[i].fileName == last.fileName;
      assert i < |front| - 1 ==> blocks[|front|-1].fileName == blocks[i].fileName;
    }
    if Contiguous(front) && (Mentions(front, last.fileName) ==> front[|front|-1].fileName == last.fileName) {
      forall i, j, k | 0 <= i < j < k < |blocks| && blocks[i].fileName == blocks[k].fileName
        ensures blocks[j].fileName == blocks[i].fileName
      {
        if k == |front| {
          assert front[i].fileName == last.fileName;
          assert j < |front| - 1 ==> front[j].fileName == front[i].fileName;
        } else {
          assert front[i].fileName == front[k].fileName;
        }
      }
    }
  }

  /** A group has one entry for each file exactly if the blocks of each file are contiguous. */
  lemma {:induction false} DistinctNamesIff(blocks: seq<Block>)
    ensures Distinct(Names(Grouped(blocks))) <==> Contiguous(blocks)
  {
    if blocks != [] {
      var front, last := blocks[..|blocks|-1], blocks[|blocks|-1];
      DistinctNamesIff(front);
      GroupedNames(front);
      ContiguousFront(blocks);
      var f, g := Grouped(front), Grouped(blocks);
      if f == [] || f[|f|-1].name != last.fileName {
        assert Names(g) == Names(f) + [last.fileName];
        DistinctAppend(Names(f), last.fileName);
      } else {
        assert Names(g) == Names(f);
      }
    }
  }

  lemma DistinctAppend(s: seq<string>, x: string)
    ensures Distinct(s + [x]) <==> Distinct(s) && x !in s
  {
    var t := s + [x];
    if Distinct(t) {
      forall i, j | 0 <= i < j < |s| ensures s[i] != s[j] { assert t[i] != t[j]; }
      forall i | 0 <= i < |s| ensures s[i] != x { assert t[i] != t[|s|]; }
    }
  }

  // ----- Summarizing again ---------------------------------------------------------------

  /** The totals after `n` calls of `Summarize` on a new list. */
  function Totals(group: seq<FileCov>, n: nat): (int, int)
  {
    if n == 0 then (0, 0) else Summarized(group, Totals(group, n - 1))
  }

  lemma {:induction false} TotalsGrow(group: seq<FileCov>, n: nat)
    ensures Totals(group, n) == (n * Sums(group).0, n * Sums(group).1)
  {
    hide Sums;
    if n > 0 {
      TotalsGrow(group, n - 1);
      var (all, covered) := Sums(group);
      assert n * all == (n - 1) * all + all && n * covered == (n - 1) * covered + covered;
    }
  }

  /** However often a list was summarized: the totals grow with every call, the ratio is that of the
      group. */
  lemma RatioStable(group: seq<FileCov>, n: nat)
    requires n > 0
    ensures Totals(group, n) == (n * Sums(group).0, n * Sums(group).1)
    ensures Ratio(Totals(group, n).1, Totals(group, n).0) == Ratio(Sums(group).1, Sums(group).0)
  {
    hide Ratio, Sums, Totals;
    TotalsGrow(group, n);
    RatioScaled(n, Sums(group).1, Sums(group).0);
  }

  lemma RatioScaled(n: int, covered: int, all: int)
    requires n > 0
    ensures Ratio(n * covered, n * all) == Ratio(covered, all)
  {
    if all == 0 {
      assert n * all == 0;
    } else {
      NonZero(n, all);
      RealProduct(n, all);
      RealProduct(n, covered);
      Cancel((n * covered) as real, (n * all) as real, n as real, covered as real, all as real);
    }
  }

  lemma NonZero(n: int, a: int)
    requires n > 0 && a != 0
    ensures n * a != 0
  {
  }

  lemma RealProduct(n: int, a: int)
    ensures (n * a) as real == n as real * a as real
  {
  }

  lemma Cancel(x: real, y: real, n: real, c: real, a: real)
    requires n != 0.0 && a != 0.0 && y != 0.0 && x == n * c && y == n * a
    ensures x / y == c / a
  {
    var q := c / a;
    assert q * a == c;
    assert x == q * y;
  }

  /** `ratio`, called by every report: on a list summarized `n` times before it answers the ratio of the
      group, and leaves it summarized once more. */
  method GroupRatio(g: CoverageList, ghost n: nat) returns (r: Option<real>)
    requires (g.nAllStmts, g.nCoveredStmts) == Totals(g.group, n)
    modifies g`nAllStmts, g`nCoveredStmts
    ensures r == Ratio(Sums(g.group).1, Sums(g.group).0)
    ensures (g.nAllStmts, g.nCoveredStmts) == Totals(g.group, n + 1)
  {
    hide Ratio, Sums, Summarized;
    g.Summarize();
    RatioStable(g.group, n + 1);
    r := Ratio(g.nCoveredStmts, g.nAllStmts);
  }

  /** The ratio times all statements is the covered statements; it lies between 0 and 1. */
  lemma RatioIs(covered: int, all: int)
    ensures Ratio(covered, all).None? <==> all == 0
    ensures all != 0 ==> Ratio(covered, all).value * all as real == covered as real
    ensures 0 <= covered <= all && all != 0 ==> 0.0 <= Ratio(covered, all).value <= 1.0
  {
  }

  // ----- Comparing with an earlier run (delta.go) ----------------------------------------

  /** The last entry of each name. */
  function ByName(group: seq<FileCov>): map<string, FileCov>
  {
    if group == [] then map[] else ByName(group[..|group|-1])[group[|group|-1].name := group[|group|-1]]
  }

  datatype Incremental = Incremental(base: FileCov, latest: FileCov)

  function RatioOrZero(c: FileCov): real
  {
    match Ratio(c.nCoveredStmts, c.nAllStmts)
    case Some(r) => r
    case None => 0.0
  }

  function Delta(inc: Incremental): real
  {
    RatioOrZero(inc.latest) - RatioOrZero(inc.base)
  }

  datatype GroupChanges = GroupChanges(
    added: seq<FileCov>, deleted: seq<FileCov>, kept: seq<FileCov>, changed: seq<Incremental>)

  /** The values of a map in the order of their keys. */
  ghost function InKeyOrder(m: map<string, FileCov>): (r: seq<FileCov>)
    ensures |r| == |SortedList(m.Keys)|
  {
    var keys := SortedList(m.Keys);
    assert forall i :: 0 <= i < |keys| ==> keys[i] in Elements(keys);
    seq(|keys|, i requires 0 <= i < |keys| => m[keys[i]])
  }

  /** `sorted`; the keys come in any order. */
  method Sorted(m: map<string, FileCov>) returns (result: seq<FileCov>)
    ensures result == InKeyOrder(m)
  {
    hide Sort, SortedList;
    var keys: seq<string> := [];
    var left := m.Keys;
    while left != {}
      invariant left <= m.Keys && Distinct(keys) && Elements(keys) == m.Keys - left
      decreases |left|
    {
      var k :| k in left;
      assert forall x :: x in keys <==> x in Elements(keys);
      assert Elements(keys + [k]) == Elements(keys) + {k};
      keys := keys + [k];
      left := left - {k};
    }
    SortsTo(keys, m.Keys);
    keys := Sort(keys);
    assert forall i :: 0 <= i < |keys| ==> keys[i] in Elements(keys);
    result := [];
    for i := 0 to |keys|
      invariant |result| == i && forall k :: 0 <= k < i ==> result[k] == InKeyOrder(m)[k]
    {
      result := result + [m[keys[i]]];
    }
  }

  /** The three lists filled by the loop; a name of the base is used up by its first match. */
  function Compared(base: map<string, FileCov>, latest: seq<FileCov>): GroupChanges
  {
    if latest == [] then GroupChanges([], [], [], [])
    else
      var front, c := latest[..|latest|-1], latest[|latest|-1];
      var d := Compared(base, front);
      var isNew := c.name !in base || c.name in Names(front);
      var inc := Incremental(if isNew then NewCoverage(c.name) else base[c.name], c);
      GroupChanges(
        if isNew then d.added + [c] else d.added,
        [],
        if Delta(inc) == 0.0 && !isNew then d.kept + [c] else d.kept,
        if Delta(inc) == 0.0 && !isNew then d.changed else d.changed + [inc])
  }

  ghost function NameSet(group: seq<FileCov>): set<string>
  {
    set n | n in Names(group)
  }

  lemma NamesStep(group: seq<FileCov>, i: nat)
    requires i < |group|
    ensures Names(group[..i + 1]) == Names(group[..i]) + [group[i].name]
    ensures NameSet(group[..i + 1]) == NameSet(group[..i]) + {group[i].name}
  {
    assert Names(group[..i + 1]) == Names(group[..i]) + [group[i].name];
  }

  method NewGroupChanges(baseList: CoverageList, newList: CoverageList) returns (r: GroupChanges)
    ensures var base, latest := ByName(baseList.group), newList.group;
            r == Compared(base, latest).(deleted := InKeyOrder(base - NameSet(latest)))
  {
    hide Delta, ByName;
    ghost var latest := newList.group;
    var baseFilesMap := baseList.Map();
    ghost var base := baseFilesMap;
    r := GroupChanges([], [], [], []);
    for i := 0 to |newList.group|
      invariant r == Compared(base, latest[..i])
      invariant baseFilesMap == base - NameSet(latest[..i])
    {
      NamesStep(latest, i);
      assert latest[..i + 1][..i] == latest[..i];
      var newCov := newList.group[i];
      var name := newCov.name;
      var baseCov, isNewFile := NewCoverage(name), false;
      if name in baseFilesMap {
        baseCov := baseFilesMap[name];
      } else {
        r := r.(added := r.added + [newCov]);
        isNewFile := true;
      }
      baseFilesMap := baseFilesMap - {name};
      var incremental := Incremental(baseCov, newCov);
      if Delta(incremental) == 0.0 && !isNewFile {
        r := r.(kept := r.kept + [newCov]);
      } else {
        r := r.(changed := r.changed + [incremental]);
      }
    }
    assert latest[..|latest|] == latest;
    var deleted := Sorted(baseFilesMap);
    r := r.(deleted := deleted);
  }

  // ----- What the comparison means -------------------------------------------------------

  /** In the base with the same ratio. */
  predicate SameRatio(base: map<string, FileCov>, c: FileCov)
  {
    c.name in base && RatioOrZero(c) == RatioOrZero(base[c.name])
  }

  /** Two files have the same ratio if their counts are in proportion; one without statements counts as
      not covered at all. */
  lemma SameRatioIff(base: map<string, FileCov>, c: FileCov)
    ensures SameRatio(base, c) <==>
            c.name in base
            && var b := base[c.name];
            if b.nAllStmts == 0 || c.nAllStmts == 0
            then (b.nAllStmts == 0 || b.nCoveredStmts == 0) && (c.nAllStmts == 0 || c.nCoveredStmts == 0)
            else c.nCoveredStmts * b.nAllStmts == b.nCoveredStmts * c.nAllStmts
  {
  }

  function BaseOf(base: map<string, FileCov>, name: string): FileCov
  {
    if name in base then base[name] else NewCoverage(name)
  }

  /** Each file of the new list is in exactly one of Unchanged and Changed, which of them depends on
      its ratio alone, and Added holds exactly the files the base lacks. */
  lemma {:induction false} ComparedIs(base: map<string, FileCov>, latest: seq<FileCov>)
    requires Distinct(Names(latest))
    ensures var d := Compared(base, latest);
      && (forall c :: c in d.added <==> c in latest && c.name !in base)
      && (forall c :: c in d.kept <==> c in latest && SameRatio(base, c))
      && (forall inc: Incremental :: inc in d.changed <==>
            inc.latest in latest && !SameRatio(base, inc.latest) && inc.base == BaseOf(base, inc.latest.name))
      && |d.kept| + |d.changed| == |latest|
  {
    hide RatioOrZero, Distinct, Names;
    if latest != [] {
      var front, c := latest[..|latest|-1], latest[|latest|-1];
      NamesStep(latest, |latest| - 1);
      assert latest[..|latest|] == latest && latest == front + [c];
      DistinctAppend(Names(front), c.name);
      ComparedIs(base, front);
    }
  }

  /** Deleted holds the files of the base that the new list lacks, in order of their names. */
  lemma DeletedIs(base: seq<FileCov>, latest: seq<FileCov>)
    requires Distinct(Names(base))
    ensures var deleted := InKeyOrder(ByName(base) - NameSet(latest));
      && StrictlyAscending(Names(deleted))
      && (forall c :: c in deleted <==> c in base && c.name !in NameSet(latest))
  {
    hide SortedList, NameSet;
    var m := ByName(base) - NameSet(latest);
    var keys, deleted := SortedList(m.Keys), InKeyOrder(ByName(base) - NameSet(latest));
    ByNameIs(base);
    assert forall i :: 0 <= i < |keys| ==> keys[i] in Elements(keys);
    forall i | 0 <= i < |deleted|
      ensures deleted[i].name == keys[i] && deleted[i] in base && keys[i] !in NameSet(latest)
    {
      assert keys[i] in m;
    }
    forall c | c in base && c.name !in NameSet(latest) ensures c in deleted {
      assert ByName(base)[c.name] == c;
      assert c.name in Elements(keys);
      var i :| 0 <= i < |keys| && keys[i] == c.name;
      assert deleted[i] == c;
    }
  }

  /** The map holds each entry of the group under its name, and nothing else. */
  ghost predicate Indexes(m: map<string, FileCov>, group: seq<FileCov>)
  {
    && (forall n :: n in m ==> m[n] in group && m[n].name == n)
    && (forall c :: c in group ==> c.name in m && m[c.name] == c)
    && |m| == |group|
  }

  lemma IndexesStep(m: map<string, FileCov>, front: seq<FileCov>, c: FileCov)
    requires Indexes(m, front) && c.name !in Names(front)
    ensures Indexes(m[c.name := c], front + [c])
  {
    assert c.name !in m by {
      forall i | 0 <= i < |front| ensures front[i].name != c.name {
        assert Names(front)[i] in Names(front);
      }
    }
    assert m[c.name := c].Keys == m.Keys + {c.name};
  }

  lemma {:induction false} ByNameIs(group: seq<FileCov>)
    requires Distinct(Names(group))
    ensures Indexes(ByName(group), group)
  {
    hide Indexes, Distinct;
    if group == [] {
      NothingIndexed();
    } else {
      var front, c := group[..|group|-1], group[|group|-1];
      NamesStep(group, |group| - 1);
      assert group[..|group|] == group == front + [c];
      DistinctAppend(Names(front), c.name);
      ByNameIs(front);
      IndexesStep(ByName(front), front, c);
    }
  }

  lemma NothingIndexed()
    ensures Indexes(map[], [])
  {
  }

  lemma RestStep(keys: set<string>, names: set<string>, x: string)
    requires x !in names
    ensures |keys - (names + {x})| == |keys - names| - if x in keys then 1 else 0
  {
    assert keys - (names + {x}) == (keys - names) - {x};
  }

  lemma AddedStep(base: map<string, FileCov>, latest: seq<FileCov>)
    requires latest != [] && latest[|latest|-1].name !in Names(latest[..|latest|-1])
    ensures |Compared(base, latest).added|
         == |Compared(base, latest[..|latest|-1]).added| + if latest[|latest|-1].name in base then 0 else 1
  {
    hide Delta;
  }

  /** The books balance: what was there and what was added is what is there now and what went. */
  lemma {:induction false} FilesBalance(base: map<string, FileCov>, latest: seq<FileCov>)
    requires Distinct(Names(latest))
    ensures |base| + |Compared(base, latest).added| == |latest| + |base.Keys - NameSet(latest)|
  {
    hide NameSet, Distinct, Compared;
    if latest == [] {
      NothingCompared(base);
      assert base.Keys - NameSet(latest) == base.Keys;
    } else {
      var front, c := latest[..|latest|-1], latest[|latest|-1];
      NamesStep(latest, |latest| - 1);
      assert latest[..|latest|] == latest;
      DistinctAppend(Names(front), c.name);
      FilesBalance(base, front);
      InNameSet(front, c.name);
      RestStep(base.Keys, NameSet(front), c.name);
      AddedStep(base, latest);
    }
  }

  lemma NothingCompared(base: map<string, FileCov>)
    ensures NameSet([]) == {} && Compared(base, []).added == []
  {
  }

  lemma InNameSet(group: seq<FileCov>, name: string)
    ensures name in NameSet(group) <==> name in Names(group)
  {
  }
}
