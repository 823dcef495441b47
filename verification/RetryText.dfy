/**
 The comment of the flaky-test retryer as text (tools/flaky-test-retryer/github_commenter.go).

 The only memory the retryer has is the comment it posted last: one run prints the retry counters
 into a table, the next one reads them back with regular expressions. This module gives both
 directions and the theorem that they undo each other.
 */
module RetryText {
  import opened Text

  const MAX_RETRIES := 3
  const MAX_FAILED_TESTS_TO_PRINT := 8

  const MARK := "[AUTOMATED-FLAKY-RETRYER]"
  const LEGACY := "<!--AUTOMATED-FLAKY-RETRYER-->"
  const HEADER := "-->\nThe following jobs " + "failed:\n\nTest name | Tri" + "ggers | Retries\n---" + " | --- | ---"

  /** One row of the table. */
  datatype Entry = Entry(name: string, links: string, retries: int)

  /** `entry.toString`. */
  function EntryText(e: Entry): string
  {
    e.name + " | " + e.links + " | " + Itoa(e.retries) + "/3"
  }

  /** `stringToEntry`: three or more fields, or the two of the older format. */
  function StringToEntry(s: string): Option<Entry>
  {
    var fields := Split(s, " | ");
    if |fields| < 2 then None
    else
      var retryField := if |fields| >= 3 then fields[2] else fields[1];
      match Atoi(Split(retryField, "/")[0])
      case None => None
      case Some(n) => Some(Entry(fields[0], if |fields| >= 3 then fields[1] else "", n))
  }

  // ----- The expression  .* \| \d/\d  ----------------------------------------------------

  /** ` | d/d` at position `i`. */
  predicate CellAt(s: string, i: nat)
  {
    && i + 6 <= |s|
    && s[i] == ' ' && s[i + 1] == '|' && s[i + 2] == ' '
    && IsDigit(s[i + 3]) && s[i + 4] == '/' && IsDigit(s[i + 5])
  }

  ghost predicate NoCell(s: string)
  {
    forall i: nat :: !CellAt(s, i)
  }

  /** `s[i..j]` matches. */
  predicate Match(s: string, i: nat, j: nat)
  {
    i + 6 <= j <= |s| && CellAt(s, j - 6) && OneLine(s, i, j)
  }

  /** The match a leftmost, greedy search reports: first the least start, then the greatest end. */
  predicate FirstMatch(s: string, i: nat, j: nat)
  {
    && Match(s, i, j)
    && (forall i': nat, j': nat :: i' <= |s| && j' <= |s| && Match(s, i', j') ==> i <= i')
    && (forall j': nat :: j' <= |s| && Match(s, i, j') ==> j' <= j)
  }

  datatype Span = Span(from: nat, to: nat)

  function First(s: string): (r: Option<Span>)
    ensures r.Some? ==> FirstMatch(s, r.value.from, r.value.to)
    ensures r.None? ==> forall i: nat, j: nat :: !FirstMatch(s, i, j)
  {
    if i: nat, j: nat :| i <= |s| && j <= |s| && FirstMatch(s, i, j) then Some(Span(i, j)) else None
  }

  /** `FindAllString`: successive non-overlapping matches. */
  function FindAll(s: string): seq<string>
    decreases |s|
  {
    match First(s)
    case None => []
    case Some(m) => [s[m.from..m.to]] + FindAll(s[m.to..])
  }

  /** `parseEntries` on the matches found; a later row of the same name replaces an earlier one. */
  function ParseRows(rows: seq<string>): Option<map<string, Entry>>
  {
    if rows == [] then Some(map[])
    else
      match ParseRows(rows[..|rows|-1])
      case None => None
      case Some(m) =>
        match StringToEntry(rows[|rows|-1])
        case None => None
        case Some(e) => Some(m[e.name := e])
  }

  function ParseEntries(body: string): Option<map<string, Entry>>
  {
    ParseRows(FindAll(body))
  }

  // ----- The expression  \[TOKEN\](.*?)\[TOKEN\]  ----------------------------------------

  predicate Marked(s: string, i: nat, j: nat)
  {
    At(s, MARK, i) && i + |MARK| <= j && At(s, MARK, j) && OneLine(s, i + |MARK|, j)
  }

  /** Leftmost start, then the nearest end, as the expression is not greedy. */
  predicate FirstMarked(s: string, i: nat, j: nat)
  {
    && Marked(s, i, j)
    && (forall i': nat, j': nat :: i' <= |s| && j' <= |s| && Marked(s, i', j') ==> i <= i')
    && (forall j': nat :: j' <= |s| && Marked(s, i, j') ==> j <= j')
  }

  /** The captured commit, when the comment carries a marker. */
  function Marker(s: string): Option<string>
  {
    if i: nat, j: nat :| i <= |s| && j <= |s| && FirstMarked(s, i, j) then Some(s[i + |MARK|..j]) else None
  }

  /** The comment is one of the retryer's own formats. */
  predicate Recognised(body: string)
  {
    Contains(body, LEGACY) || Marker(body).Some?
  }

  // ----- Printing ------------------------------------------------------------------------

  function EntryLines(entries: map<string, Entry>, keys: seq<string>): (r: seq<string>)
    requires forall k :: k in keys ==> k in entries
  {
    seq(|keys|, i requires 0 <= i < |keys| => EntryText(entries[keys[i]]))
  }

  function CommentFrom(sha: string, rows: seq<string>, cmd: string): string
  {
    "<!--" + MARK + sha + MARK + HEADER + "\n" + Join(rows, "\n") + "\n\n" + cmd
  }

  ghost function CommentText(sha: string, entries: map<string, Entry>, cmd: string): string
  {
    CommentFrom(sha, EntryLines(entries, SortedList(entries.Keys)), cmd)
  }

  function OutOfRetriesText(job: string): string
  {
    "Job " + job + " expended all 3 " + "retries without success."
  }

  function NoRetryText(job: string, outliers: seq<string>): string
  {
    var lastIndex := if |outliers| > MAX_FAILED_TESTS_TO_PRINT then MAX_FAILED_TESTS_TO_PRINT else |outliers|;
    "Failed non-flaky tests " + "preventing automatic " + "retry of " + job + ":\n\n```\n"
      + Join(outliers[..lastIndex], "\n") + "\n```"
      + if |outliers| > MAX_FAILED_TESTS_TO_PRINT
        then "\n\nand " + Itoa(|outliers| - MAX_FAILED_TESTS_TO_PRINT) + " more."
        else ""
  }

  function RetryCommand(job: string): string
  {
    "Automatically retrying " + "due to test flakiness..." + "\n/test " + job
  }

  /** `addLink` with its dead truncation: the joined last two links are overwritten at once. */
  function WithLink(links: string, newLink: string): string
  {
    var oldLinks := if links != "" then Split(links, "<br>") else [];
    Join(oldLinks + [newLink], "<br>")
  }

  // ----- Searching the printed text ------------------------------------------------------

  lemma ShiftMatch(pre: string, rest: string, i: nat, j: nat)
    requires NoCell(pre)
    ensures var k := |pre| + 1;
            Match(pre + "\n" + rest, i, j) <==> i >= k && j >= k && Match(rest, i - k, j - k)
  {
    var s := pre + "\n" + rest;
    var k := |pre| + 1;
    assert s[|pre|] == '\n';
    assert forall c :: 0 <= c < |pre| ==> s[c] == pre[c];
    assert j <= |pre| ==> !Match(s, i, j) by {
      assert j >= 6 && j <= |pre| ==> (CellAt(s, j - 6) <==> CellAt(pre, j - 6));
    }
    if i >= k && i + 6 <= j <= |s| {
      assert forall c :: k <= c < |s| ==> s[c] == rest[c - k];
      assert forall c :: 0 <= c < |rest| ==> rest[c] == s[c + k];
    }
    if i >= k && i + 6 <= j <= |s| {
      assert CellAt(s, j - 6) <==> CellAt(rest, j - k - 6);
    }
  }

  lemma ShiftFirstMatch(pre: string, rest: string, i: nat, j: nat)
    requires NoCell(pre)
    ensures FirstMatch(rest, i, j) <==> FirstMatch(pre + "\n" + rest, i + |pre| + 1, j + |pre| + 1)
  {
    var s := pre + "\n" + rest;
    var k := |pre| + 1;
    forall i': nat, j': nat
      ensures Match(s, i', j') <==> i' >= k && j' >= k && Match(rest, i' - k, j' - k)
    {
      ShiftMatch(pre, rest, i', j');
    }
    forall i': nat, j': nat ensures Match(s, i' + k, j' + k) <==> Match(rest, i', j') {
    }
  }

  lemma FindAllFirst(s: string, i: nat, j: nat)
    requires FirstMatch(s, i, j)
    ensures FindAll(s) == [s[i..j]] + FindAll(s[j..])
  {
    forall i': nat, j': nat | FirstMatch(s, i', j') ensures i' == i && j' == j {
    }
  }

  lemma FindAllNone(s: string)
    requires forall i: nat, j: nat :: !FirstMatch(s, i, j)
    ensures FindAll(s) == []
  {
  }

  lemma SkipNothing(pre: string, rest: string)
    requires NoCell(pre)
    requires forall i: nat, j: nat :: !FirstMatch(rest, i, j)
    ensures forall i: nat, j: nat :: !FirstMatch(pre + "\n" + rest, i, j)
  {
    var k := |pre| + 1;
    forall i: nat, j: nat ensures !FirstMatch(pre + "\n" + rest, i, j) {
      ShiftMatch(pre, rest, i, j);
      if i >= k && j >= k {
        ShiftFirstMatch(pre, rest, i - k, j - k);
      }
    }
  }

  lemma MatchBounds(s: string, i: nat, j: nat)
    requires FirstMatch(s, i, j)
    ensures i + 6 <= j <= |s|
  {
  }

  lemma SameMatch(s: string, rest: string, k: nat, i: nat, j: nat)
    requires k <= |s| && s[k..] == rest
    requires FirstMatch(rest, i, j) && FirstMatch(s, i + k, j + k)
    ensures FindAll(s) == FindAll(rest)
  {
    hide FindAll, FirstMatch;
    MatchBounds(rest, i, j);
    FindAllFirst(rest, i, j);
    FindAllFirst(s, i + k, j + k);
    SliceDrop(s, k, i, j);
  }

  /** A search passes over text that holds no cell. */
  lemma SkipText(pre: string, rest: string)
    requires NoCell(pre)
    ensures FindAll(pre + "\n" + rest) == FindAll(rest)
  {
    if i: nat, j: nat :| FirstMatch(rest, i, j) {
      ShiftFirstMatch(pre, rest, i, j);
      SameMatch(pre + "\n" + rest, rest, |pre| + 1, i, j);
    } else {
      SkipNothing(pre, rest);
      FindAllNone(rest);
      FindAllNone(pre + "\n" + rest);
    }
  }

  /** A line as the table prints them: it ends in a cell. */
  predicate RowLine(line: string)
  {
    Free(line, '\n') && |line| >= 6 && CellAt(line, |line| - 6)
  }

  lemma LineFirst(line: string, rest: string)
    requires RowLine(line)
    ensures FirstMatch(line + "\n" + rest, 0, |line|)
  {
    var s := line + "\n" + rest;
    assert s[..|line|] == line && s[|line|] == '\n';
    assert CellAt(s, |line| - 6) <==> CellAt(line, |line| - 6);
  }

  /** A search takes a whole line when the line ends in a cell. */
  lemma TakeLine(line: string, rest: string)
    requires RowLine(line)
    ensures FindAll(line + "\n" + rest) == [line] + FindAll(rest)
  {
    hide FindAll, FirstMatch, RowLine;
    var s := line + "\n" + rest;
    LineFirst(line, rest);
    FindAllFirst(s, 0, |line|);
    EmptyHasNoCell();
    SkipText("", rest);
    assert s[0..|line|] == line && s[|line|..] == "" + "\n" + rest;
  }

  lemma JoinHead(lines: seq<string>, rest: string)
    requires |lines| > 1
    ensures Join(lines, "\n") + "\n" + rest == lines[0] + "\n" + (Join(lines[1..], "\n") + "\n" + rest)
  {
  }

  lemma {:induction false} EachLine(find: string -> seq<string>, lines: seq<string>, rest: string)
    requires forall line, tail :: RowLine(line) ==> find(line + "\n" + tail) == [line] + find(tail)
    requires lines != [] && forall k :: 0 <= k < |lines| ==> RowLine(lines[k])
    ensures find(Join(lines, "\n") + "\n" + rest) == lines + find(rest)
  {
    hide RowLine, Join;
    assert RowLine(lines[0]);
    if |lines| > 1 {
      JoinHead(lines, rest);
      EachLine(find, lines[1..], rest);
      assert [lines[0]] + (lines[1..] + find(rest)) == lines + find(rest);
    } else {
      assert lines == [lines[0]];
      JoinSingle(lines[0], "\n");
    }
  }

  lemma TakeLines(lines: seq<string>, rest: string)
    requires lines != [] && forall k :: 0 <= k < |lines| ==> RowLine(lines[k])
    ensures FindAll(Join(lines, "\n") + "\n" + rest) == lines + FindAll(rest)
  {
    forall line, tail | RowLine(line) ensures FindAll(line + "\n" + tail) == [line] + FindAll(tail) {
      TakeLine(line, tail);
    }
    EachLine(FindAll, lines, rest);
  }

  lemma NoCellNoMatch(s: string)
    requires NoCell(s)
    ensures FindAll(s) == []
  {
  }

  lemma {:induction false} LeastStart(s: string, i: nat, j: nat) returns (a: nat, b: nat)
    requires Match(s, i, j)
    ensures Match(s, a, b) && forall i': nat, j': nat :: Match(s, i', j') ==> a <= i'
    decreases i
  {
    a, b := i, j;
    if i': nat, j': nat :| Match(s, i', j') && i' < i {
      a, b := LeastStart(s, i', j');
    }
  }

  lemma {:induction false} GreatestEnd(s: string, i: nat, j: nat) returns (b: nat)
    requires Match(s, i, j)
    ensures Match(s, i, b) && forall j': nat :: Match(s, i, j') ==> j' <= b
    decreases |s| - j
  {
    b := j;
    if j': nat :| Match(s, i, j') && j' > j {
      b := GreatestEnd(s, i, j');
    }
  }

  /** `FindAll` misses nothing: it is empty only if no part of the text matches. */
  lemma FindAllComplete(s: string)
    ensures FindAll(s) == [] <==> forall i: nat, j: nat :: !Match(s, i, j)
  {
    if i: nat, j: nat :| Match(s, i, j) {
      var a, b := LeastStart(s, i, j);
      b := GreatestEnd(s, a, b);
      assert FirstMatch(s, a, b);
    }
  }

  // ----- Rows ----------------------------------------------------------------------------

  /** Text that can stand in a cell of the table. */
  predicate CellText(s: string)
  {
    Free(s, '|') && Free(s, '\n')
  }

  predicate CleanEntry(e: Entry)
  {
    CellText(e.name) && CellText(e.links)
  }

  /** No occurrence of the separator can start before the bar of the first separator. */
  lemma SplitCell(a: string, rest: string)
    requires Free(a, '|')
    ensures Split(a + " | " + rest, " | ") == [a] + Split(rest, " | ")
  {
    var s := a + " | " + rest;
    forall j: nat | j < |a| ensures !At(s, " | ", j) {
      AtChars(s, " | ", j);
      assert " | "[1] == '|';
    }
    SplitFirst(a, " | ", rest);
  }

  lemma SplitBarFree(s: string)
    requires Free(s, '|')
    ensures Split(s, " | ") == [s]
  {
    forall j: nat ensures !At(s, " | ", j) {
      AtChars(s, " | ", j);
      assert " | "[1] == '|';
    }
  }

  lemma SplitSlash(a: string, rest: string)
    requires Free(a, '/')
    ensures Split(a + "/" + rest, "/")[0] == a
  {
    var s := a + "/" + rest;
    forall j: nat | j < |a| ensures !At(s, "/", j) {
      AtChars(s, "/", j);
      assert "/"[0] == '/';
    }
    SplitFirst(a, "/", rest);
  }

  lemma RowFields(e: Entry)
    requires CleanEntry(e) && 0 <= e.retries
    ensures Split(EntryText(e), " | ") == [e.name, e.links, Decimal(e.retries) + "/3"]
  {
    hide Split;
    var last := Decimal(e.retries) + "/3";
    DecimalFree(e.retries, '|');
    assert Free(last, '|');
    assert EntryText(e) == e.name + " | " + (e.links + " | " + last);
    SplitCell(e.name, e.links + " | " + last);
    SplitCell(e.links, last);
    SplitBarFree(last);
  }

  /** One row read back, for any counter that is not negative. */
  lemma RowRoundTrip(e: Entry)
    requires CleanEntry(e) && 0 <= e.retries <= MAX_INT64
    ensures StringToEntry(EntryText(e)) == Some(e)
  {
    hide Split, EntryText, Atoi;
    var d := Decimal(e.retries);
    RowFields(e);
    DecimalFree(e.retries, '/');
    assert d + "/3" == d + "/" + "3";
    SplitSlash(d, "3");
    AtoiDecimal(e.retries);
  }

  /** A row of the older format, without links, is read as well. */
  lemma OldRowRead(name: string, n: nat)
    requires CellText(name) && n <= MAX_INT64
    ensures StringToEntry(name + " | " + Decimal(n) + "/3") == Some(Entry(name, "", n))
  {
    hide Split, Atoi, Decimal;
    var d := Decimal(n);
    var last := d + "/3";
    DecimalFree(n, '|');
    DecimalFree(n, '/');
    assert name + " | " + d + "/3" == name + " | " + last;
    SplitCell(name, last);
    SplitBarFree(last);
    assert d + "/3" == d + "/" + "3";
    SplitSlash(d, "3");
    AtoiDecimal(n);
  }

  lemma ItoaShape(n: int)
    ensures |Itoa(n)| >= 1 && IsDigit(Itoa(n)[|Itoa(n)|-1])
    ensures |Itoa(n)| == 1 <==> 0 <= n <= 9
    ensures |Itoa(n)| > 1 ==> Itoa(n)[|Itoa(n)|-2] != ' '
    ensures Free(Itoa(n), '|') && Free(Itoa(n), '\n')
  {
  }

  lemma RowShape(e: Entry)
    requires CleanEntry(e)
    ensures Free(EntryText(e), '\n') && |EntryText(e)| >= 8
    ensures CellAt(EntryText(e), |EntryText(e)| - 6) <==> 0 <= e.retries <= 9
  {
    ItoaShape(e.retries);
    var d := Itoa(e.retries);
    var s := EntryText(e);
    assert s == (e.name + " | " + e.links + " | ") + d + "/3";
    assert s[|s| - 3] == d[|d| - 1];
    if |d| > 1 {
      assert s[|s| - 4] == d[|d| - 2];
    }
  }

  /** The search finds a printed row as printed if and only if its counter has one digit: this is
      why the counter must stay small for the comment to remember it. */
  lemma RowFoundIff(e: Entry)
    requires CleanEntry(e)
    ensures FindAll(EntryText(e)) == [EntryText(e)] <==> 0 <= e.retries <= 9
  {
    var s := EntryText(e);
    RowShape(e);
    assert s[0..|s|] == s;
    if 0 <= e.retries <= 9 {
      assert Match(s, 0, |s|);
      assert FirstMatch(s, 0, |s|);
      assert s[|s|..] == "";
      assert FindAll("") == [] by { NoCellNoMatch(""); }
    } else if i: nat, j: nat :| FirstMatch(s, i, j) {
      FindAllFirst(s, i, j);
      assert !Match(s, 0, |s|);
      assert FindAll(s)[0] == s[i..j] && |s[i..j]| < |s|;
    } else {
      FindAllNone(s);
    }
  }

  // ----- The whole comment ---------------------------------------------------------------

  /** A commit hash, as far as the comment cares. */
  predicate ShaText(sha: string)
  {
    Free(sha, '[') && Free(sha, '/') && Free(sha, '\n')
  }

  /** Entries are stored under their own names. */
  ghost predicate KeyedByName(entries: map<string, Entry>)
  {
    forall k :: k in entries ==> entries[k].name == k
  }

  ghost predicate Printable(entries: map<string, Entry>)
  {
    entries != map[] && KeyedByName(entries)
    && forall k :: k in entries ==> CleanEntry(entries[k]) && 0 <= entries[k].retries <= 9
  }

  lemma NoCellIff(s: string)
    ensures FindAll(s) == [] <==> NoCell(s)
  {
    hide FindAll;
    FindAllComplete(s);
    forall i: nat | CellAt(s, i) ensures Match(s, i, i + 6) {
    }
  }

  lemma NoCellLines(a: string, b: string)
    ensures NoCell(a + "\n" + b) <==> NoCell(a) && NoCell(b)
  {
    var s := a + "\n" + b;
    forall i: nat ensures CellAt(a, i) ==> CellAt(s, i) {
    }
    forall i: nat ensures CellAt(b, i) ==> CellAt(s, i + |a| + 1) {
    }
    forall i: nat ensures CellAt(s, i) ==> CellAt(a, i) || (i >= |a| + 1 && CellAt(b, i - |a| - 1)) {
      assert s[|a|] == '\n';
    }
  }

  lemma HeadHasNoSlash(sha: string)
    requires ShaText(sha)
    ensures Free("<!--" + MARK + sha + MARK + HEADER, '/')
  {
    var a, b, c, d := "-->\nThe following jobs ", "failed:\n\nTest name | Tri", "ggers | Retries\n---", " | --- | ---";
    assert HEADER == a + b + c + d;
    assert '/' !in a && '/' !in b && '/' !in c && '/' !in d;
    assert '/' !in MARK && '/' !in "<!--";
    assert '/' !in HEADER;
  }

  lemma HeadHasNoCell(sha: string)
    requires ShaText(sha)
    ensures NoCell("<!--" + MARK + sha + MARK + HEADER)
  {
    HeadHasNoSlash(sha);
  }

  lemma LinesAreRows(entries: map<string, Entry>)
    requires Printable(entries)
    ensures var lines := EntryLines(entries, SortedList(entries.Keys));
            lines != [] && forall k :: 0 <= k < |lines| ==> RowLine(lines[k])
  {
    hide RowLine, EntryText;
    var keys := SortedList(entries.Keys);
    var lines := EntryLines(entries, keys);
    EmptyElements(keys);
    assert entries.Keys != {} by {
      var k :| k in entries;
      assert k in entries.Keys;
    }
    forall k | 0 <= k < |lines| ensures RowLine(lines[k]) {
      assert keys[k] in Elements(keys);
      RowIsLine(entries[keys[k]]);
    }
  }

  lemma RowIsLine(e: Entry)
    requires CleanEntry(e) && 0 <= e.retries <= 9
    ensures RowLine(EntryText(e))
  {
    RowShape(e);
  }

  lemma RegroupComment(open: string, sha: string, header: string, rows: string, cmd: string)
    ensures open + MARK + sha + MARK + header + "\n" + rows + "\n\n" + cmd
         == (open + MARK + sha + MARK + header) + "\n" + (rows + "\n" + ("" + "\n" + cmd))
  {
    assert "\n\n" + cmd == "\n" + ("\n" + cmd) && "" + "\n" + cmd == "\n" + cmd;
  }

  lemma CommentParts(sha: string, entries: map<string, Entry>, cmd: string)
    ensures CommentText(sha, entries, cmd)
         == ("<!--" + MARK + sha + MARK + HEADER) + "\n"
            + (Join(EntryLines(entries, SortedList(entries.Keys)), "\n") + "\n" + ("" + "\n" + cmd))
  {
    assert forall k :: k in SortedList(entries.Keys) ==> k in Elements(SortedList(entries.Keys));
    var rows := Join(EntryLines(entries, SortedList(entries.Keys)), "\n");
    hide Join, EntryLines, SortedList;
    RegroupComment("<!--", sha, HEADER, rows, cmd);
  }

  lemma RowsRead(sha: string, entries: map<string, Entry>, cmd: string)
    requires Printable(entries) && ShaText(sha)
    ensures FindAll(CommentText(sha, entries, cmd))
         == EntryLines(entries, SortedList(entries.Keys)) + FindAll(cmd)
  {
    hide FindAll, CommentText, RowLine, NoCell, EntryLines, Join, Printable, ShaText;
    var lines := EntryLines(entries, SortedList(entries.Keys));
    LinesAreRows(entries);
    CommentParts(sha, entries, cmd);
    HeadHasNoCell(sha);
    SkipText("<!--" + MARK + sha + MARK + HEADER, Join(lines, "\n") + "\n" + ("" + "\n" + cmd));
    TakeLines(lines, "" + "\n" + cmd);
    EmptyHasNoCell();
    SkipText("", cmd);
  }

  lemma EmptyHasNoCell()
    ensures NoCell("")
  {
  }

  lemma {:induction false} LinesParse(entries: map<string, Entry>, keys: seq<string>)
    requires Printable(entries) && forall k :: k in keys ==> k in entries
    ensures ParseRows(EntryLines(entries, keys)) == Some(map k | k in keys :: entries[k])
  {
    hide StringToEntry, EntryText, CleanEntry;
    if keys != [] {
      var before, last := keys[..|keys|-1], keys[|keys|-1];
      assert keys == before + [last];
      LinesParse(entries, before);
      RowRoundTrip(entries[last]);
      assert EntryLines(entries, keys) == EntryLines(entries, before) + [EntryText(entries[last])];
      ParseOneMore(EntryLines(entries, before), EntryText(entries[last]),
                   map k | k in before :: entries[k], entries[last]);
      assert (map k | k in keys :: entries[k]) == (map k | k in before :: entries[k])[last := entries[last]];
    }
  }

  lemma KeysInMap(entries: map<string, Entry>)
    ensures var keys := SortedList(entries.Keys);
            (forall k :: k in keys <==> k in entries) && (map k | k in keys :: entries[k]) == entries
  {
    var keys := SortedList(entries.Keys);
    assert forall k :: k in keys <==> k in Elements(keys);
  }

  /** Printer and parser undo each other: whatever table was posted is what the next run reads,
      provided the text below the table does not look like a row. */
  lemma CommentRoundTrip(sha: string, entries: map<string, Entry>, cmd: string)
    requires Printable(entries) && ShaText(sha) && NoCell(cmd)
    ensures ParseEntries(CommentText(sha, entries, cmd)) == Some(entries)
  {
    hide FindAll, CommentText, EntryLines, ParseRows, NoCell, Printable;
    var keys := SortedList(entries.Keys);
    RowsRead(sha, entries, cmd);
    NoCellIff(cmd);
    KeysInMap(entries);
    LinesParse(entries, keys);
    assert EntryLines(entries, keys) + [] == EntryLines(entries, keys);
  }

  /** The proviso is exact: the rows are found as printed if and only if nothing below them
      contains ` | d/d`. */
  lemma RowsReadBackIff(sha: string, entries: map<string, Entry>, cmd: string)
    requires Printable(entries) && ShaText(sha)
    ensures FindAll(CommentText(sha, entries, cmd)) == EntryLines(entries, SortedList(entries.Keys)) <==> NoCell(cmd)
  {
    var lines := EntryLines(entries, SortedList(entries.Keys));
    RowsRead(sha, entries, cmd);
    NoCellIff(cmd);
    assert |lines + FindAll(cmd)| == |lines| + |FindAll(cmd)|;
    assert lines + [] == lines;
  }

  lemma FreeNoCell(s: string)
    requires Free(s, '|')
    ensures NoCell(s)
  {
  }

  lemma FixedCommandsHaveNoCell(job: string)
    requires CellText(job)
    ensures NoCell(RetryCommand(job)) && NoCell(OutOfRetriesText(job))
  {
    assert '|' !in "Automatically retrying " && '|' !in "due to test flakiness..." && '|' !in "\n/test ";
    assert '|' !in "Job " && '|' !in " expended all 3 " && '|' !in "retries without success.";
    FreeNoCell(RetryCommand(job));
    FreeNoCell(OutOfRetriesText(job));
  }

  lemma {:induction false} JoinedNoCell(parts: seq<string>)
    ensures NoCell(Join(parts, "\n")) <==> forall k :: 0 <= k < |parts| ==> NoCell(parts[k])
  {
    if |parts| > 1 {
      NoCellLines(parts[0], Join(parts[1..], "\n"));
      JoinedNoCell(parts[1..]);
      assert parts == [parts[0]] + parts[1..];
    }
  }

  function Printed(outliers: seq<string>): seq<string>
  {
    if |outliers| > MAX_FAILED_TESTS_TO_PRINT then outliers[..MAX_FAILED_TESTS_TO_PRINT] else outliers
  }

  function NoRetryHead(job: string): string
  {
    "Failed non-flaky tests " + "preventing automatic " + "retry of " + job + ":\n\n```"
  }

  function NoRetryTail(count: nat): string
  {
    "```" + if count > MAX_FAILED_TESTS_TO_PRINT
            then "\n\nand " + Itoa(count - MAX_FAILED_TESTS_TO_PRINT) + " more."
            else ""
  }

  lemma NoRetryFrame(job: string, count: nat)
    requires CellText(job)
    ensures NoCell(NoRetryHead(job)) && NoCell(NoRetryTail(count))
  {
    assert '|' !in "Failed non-flaky tests " && '|' !in "preventing automatic " && '|' !in "retry of ";
    assert '|' !in ":\n\n```" && '|' !in "\n\nand " && '|' !in " more." && '|' !in "```";
    FreeNoCell(NoRetryHead(job));
    if count > MAX_FAILED_TESTS_TO_PRINT { DecimalFree(count - MAX_FAILED_TESTS_TO_PRINT, '|'); }
    FreeNoCell(NoRetryTail(count));
  }

  lemma NoRetryParts(job: string, outliers: seq<string>)
    ensures NoRetryText(job, outliers)
         == NoRetryHead(job) + "\n" + (Join(Printed(outliers), "\n") + "\n" + NoRetryTail(|outliers|))
  {
    hide Join, Itoa;
    assert outliers[..|outliers|] == outliers;
  }

  /** The list of failed tests is harmless exactly when no test printed contains ` | d/d`. */
  lemma NoRetryTextNoCellIff(job: string, outliers: seq<string>)
    requires CellText(job)
    ensures NoCell(NoRetryText(job, outliers)) <==>
            forall k :: 0 <= k < |Printed(outliers)| ==> NoCell(Printed(outliers)[k])
  {
    hide NoCell, NoRetryText, NoRetryHead, NoRetryTail, CellText;
    var listed := Join(Printed(outliers), "\n");
    var tail := NoRetryTail(|outliers|);
    NoRetryFrame(job, |outliers|);
    NoRetryParts(job, outliers);
    NoCellLines(NoRetryHead(job), listed + "\n" + tail);
    NoCellLines(listed, tail);
    JoinedNoCell(Printed(outliers));
  }

  lemma RowInList(job: string, row: string)
    requires CellText(job) && RowLine(row)
    ensures FindAll(NoRetryText(job, [row])) == [row]
  {
    hide FindAll, NoCell, RowLine, NoRetryText, NoRetryHead, CellText;
    NoRetryFrame(job, 1);
    NoRetryParts(job, [row]);
    SkipText(NoRetryHead(job), row + "\n" + NoRetryTail(1));
    TakeLine(row, NoRetryTail(1));
    NoCellIff(NoRetryTail(1));
  }

  lemma ParseOneMore(lines: seq<string>, row: string, m: map<string, Entry>, e: Entry)
    requires ParseRows(lines) == Some(m) && StringToEntry(row) == Some(e)
    ensures ParseRows(lines + [row]) == Some(m[e.name := e])
  {
    hide StringToEntry;
    assert (lines + [row])[..|lines|] == lines;
  }

  /** A failed test named like a row forges that row: here it resets the job's counter. */
  lemma OutlierForgesRow(sha: string, entries: map<string, Entry>, job: string)
    requires Printable(entries) && ShaText(sha) && job in entries
    ensures ParseEntries(CommentText(sha, entries, NoRetryText(job, [EntryText(Entry(job, "", 0))])))
         == Some(entries[job := Entry(job, "", 0)])
  {
    hide FindAll, CommentText, EntryLines, StringToEntry, EntryText, ParseRows, NoRetryText;
    var forged := Entry(job, "", 0);
    assert CleanEntry(entries[job]);
    RowShape(forged);
    RowInList(job, EntryText(forged));
    RowsRead(sha, entries, NoRetryText(job, [EntryText(forged)]));
    var keys := SortedList(entries.Keys);
    KeysInMap(entries);
    LinesParse(entries, keys);
    RowRoundTrip(forged);
    ParseOneMore(EntryLines(entries, keys), EntryText(forged), entries, forged);
  }

  // ----- The marker ----------------------------------------------------------------------

  lemma MarkStarts(s: string, c: nat)
    ensures At(s, MARK, c) ==> c < |s| && s[c] == '['
  {
    AtChars(s, MARK, c);
    assert MARK[0] == '[';
  }

  lemma MarkerPlaces(s: string, sha: string)
    requires ShaText(sha)
    requires "<!--" + MARK + sha + MARK <= s
    ensures At(s, MARK, 4) && At(s, MARK, 29 + |sha|) && s[29..29 + |sha|] == sha
    ensures forall c :: 0 <= c < 4 || 29 <= c < 29 + |sha| ==> s[c] != '['
    ensures forall c :: 29 <= c < 29 + |sha| ==> s[c] != '\n'
  {
    var j := 29 + |sha|;
    var head := "<!--" + MARK + sha + MARK;
    assert |head| == j + 25 && s[..|head|] == head;
    assert head[4..29] == MARK && head[29..j] == sha && head[j..j + 25] == MARK;
    assert s[4..29] == head[4..29] && s[29..j] == head[29..j] && s[j..j + 25] == head[j..j + 25];
    assert forall c :: 29 <= c < j ==> s[c] == s[29..j][c - 29];
    assert s[..4] == "<!--";
    assert forall c :: 0 <= c < 4 ==> s[c] == s[..4][c];
  }

  lemma MarkerAt(s: string, sha: string)
    requires ShaText(sha)
    requires "<!--" + MARK + sha + MARK <= s
    ensures FirstMarked(s, 4, 29 + |sha|) && s[29..29 + |sha|] == sha
  {
    hide At;
    MarkerPlaces(s, sha);
    forall c: nat ensures At(s, MARK, c) ==> c < |s| && s[c] == '[' {
      MarkStarts(s, c);
    }
  }

  /** The commit in the marker is read back. */
  lemma MarkerRoundTrip(sha: string, entries: map<string, Entry>, cmd: string)
    requires ShaText(sha)
    ensures Marker(CommentText(sha, entries, cmd)) == Some(sha)
  {
    var s := CommentText(sha, entries, cmd);
    MarkerAt(s, sha);
    assert forall i: nat, j: nat :: FirstMarked(s, i, j) ==> i == 4 && j == 29 + |sha|;
  }

  // ----- Links ---------------------------------------------------------------------------

  /** Although its comment promises the last three links, `addLink` appends. */
  lemma WithLinkAppends(links: string, newLink: string)
    ensures WithLink(links, newLink) == if links == "" then newLink else links + "<br>" + newLink
  {
    if links != "" {
      JoinSplit(links, "<br>");
      JoinAppend(Split(links, "<br>"), newLink, "<br>");
    }
  }

  function LinkCount(links: string): nat
  {
    if links == "" then 0 else |Split(links, "<br>")|
  }

  /** Two separators cannot overlap. */
  lemma BreakAt(a: string, b: string, j: nat)
    requires j < |a|
    ensures At(a + "<br>" + b, "<br>", j) <==> At(a, "<br>", j)
  {
    var sep := "<br>";
    var s := a + sep + b;
    AtChars(s, sep, j);
    assert sep[1] != '<' && sep[2] != '<' && sep[3] != '<';
    assert s[|a|] == '<';
    if j + 4 <= |a| {
      assert s[j..j + 4] == a[j..j + 4];
    } else {
      var k := |a| - j;
      assert k == 1 || k == 2 || k == 3;
      assert s[j + k] == '<';
    }
  }

  lemma BreakIndex(a: string, b: string)
    ensures Index(a, "<br>").None? ==> Index(a + "<br>" + b, "<br>") == Some(|a|)
    ensures Index(a, "<br>").Some? ==> Index(a + "<br>" + b, "<br>") == Index(a, "<br>")
  {
    hide At;
    var s := a + "<br>" + b;
    BreakHere(a, b);
    forall j: nat | j < |a| ensures At(s, "<br>", j) <==> At(a, "<br>", j) {
      BreakAt(a, b, j);
    }
    IndexInside(a, "<br>");
  }

  lemma BreakHere(a: string, b: string)
    ensures At(a + "<br>" + b, "<br>", |a|)
  {
  }

  lemma {:induction false} SplitBreak(a: string, b: string)
    requires Index(b, "<br>").None?
    ensures Split(a + "<br>" + b, "<br>") == Split(a, "<br>") + [b]
    decreases |a|
  {
    hide Split, At, Index;
    var s := a + "<br>" + b;
    BreakIndex(a, b);
    SplitOnce(a, "<br>");
    SplitOnce(b, "<br>");
    SplitOnce(s, "<br>");
    match Index(a, "<br>")
    case None =>
      assert s[..|a|] == a && s[|a| + 4..] == b;
    case Some(i) =>
      assert s[..i] == a[..i];
      assert s[i + 4..] == a[i + 4..] + "<br>" + b;
      SplitBreak(a[i + 4..], b);
      assert [a[..i]] + (Split(a[i + 4..], "<br>") + [b]) == Split(a, "<br>") + [b];
  }

  /** "Only keep latest 3 links" holds exactly while there were at most two. */
  lemma KeepsThreeLinksIff(links: string, newLink: string)
    requires newLink != "" && Index(newLink, "<br>").None?
    ensures LinkCount(WithLink(links, newLink)) == LinkCount(links) + 1
    ensures LinkCount(WithLink(links, newLink)) <= 3 <==> LinkCount(links) <= 2
  {
    WithLinkAppends(links, newLink);
    if links != "" {
      SplitBreak(links, newLink);
    }
  }
}
