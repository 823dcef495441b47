/**
 The history of a flaky test as text (tools/flaky-test-reporter/github_issue.go).

 The reporter keeps no database: every scan reads the records of earlier scans out of the comment
 it wrote last, adds its own, keeps the 60 greatest and writes the comment anew. This module
 shows that nothing is lost on the way.
 */
module FlakyHistory {
  import opened Text

  const MAX_RECORDS := 60
  const MAX_HISTORY_ENTRIES := 10

  const BEFORE := "<!------Latest History " + "of Up To 10 runs------>"
  const AFTER := "<!------End of History------>"
  const LEGEND := "&#10004; Passed\t&#10006; " + "Failed\t&#9723; Skipped\n"
  const OPENING := "\n<details>\n\t<summary>" + "Older builds</summary><p>\n"
  const CLOSING := "</p></details>"

  // ----- The expression for a single record ----------------------------------------------

  predicate IsUpper(c: char)
  {
    'A' <= c <= 'Z'
  }

  /** One shape a character: `d` a digit, `s` a sign, `U` a capital letter, else itself. */
  const SHAPE := "dddd-dd-dd dd:dd:dd sdddd UUU:"

  predicate Fits(c: char, shape: char)
  {
    match shape
    case 'd' => IsDigit(c)
    case 's' => c == '+' || c == '-'
    case 'U' => IsUpper(c)
    case _ => c == shape
  }

  predicate IsStamp(w: string)
  {
    |w| == |SHAPE| && forall k :: 0 <= k < |w| ==> Fits(w[k], SHAPE[k])
  }

  /** A stamp, `YYYY-MM-DD hh:mm:ss +zzzz ZZZ:`, at position `i`. */
  predicate StampAt(s: string, i: nat)
  {
    i + 30 <= |s| && IsStamp(s[i..i + 30])
  }

  ghost predicate NoStamp(s: string)
  {
    forall i: nat :: !StampAt(s, i)
  }

  /** The leftmost stamp. */
  function FirstStamp(s: string, from: nat): (r: Option<nat>)
    requires from <= |s|
    ensures r.Some? ==> from <= r.value && StampAt(s, r.value)
    ensures r.Some? ==> forall i: nat :: from <= i < r.value ==> !StampAt(s, i)
    ensures r.None? ==> forall i: nat :: from <= i ==> !StampAt(s, i)
    decreases |s| - from
  {
    if StampAt(s, from) then Some(from)
    else if from == |s| then None
    else FirstStamp(s, from + 1)
  }

  /** The end of the line that holds position `i`. */
  function LineEnd(s: string, i: nat): (j: nat)
    requires i <= |s|
    ensures i <= j <= |s| && OneLine(s, i, j) && (j == |s| || s[j] == '\n')
    decreases |s| - i
  {
    if i == |s| || s[i] == '\n' then i else LineEnd(s, i + 1)
  }

  /** `FindAllStringSubmatch`: every record runs from a stamp to the end of its line. */
  function FindRecords(s: string): seq<string>
    decreases |s|
  {
    match FirstStamp(s, 0)
    case None => []
    case Some(i) =>
      var j := LineEnd(s, i + 30);
      [s[i..j]] + FindRecords(s[j..])
  }

  // ----- Building the history ------------------------------------------------------------

  datatype RunResult = RunPassed | RunFailed | RunSkipped

  function Icon(r: RunResult): string
  {
    match r
    case RunPassed => "&#10004;"
    case RunFailed => "&#10006;"
    case RunSkipped => "&#9723;"
  }

  function RunText(runs: seq<(RunResult, string)>): string
  {
    if runs == [] then ""
    else
      RunText(runs[..|runs|-1]) + RunLink(runs[|runs|-1])
  }

  function RunLink(run: (RunResult, string)): string
  {
    " [" + Icon(run.0) + "](" + run.1 + ")"
  }

  /** The record of one scan: when its last build started, and how its runs went. */
  function Record(start: string, runs: seq<(RunResult, string)>): string
  {
    start + ": " + RunText(runs)
  }

  /** `strings.ReplaceAll(record, AFTER, "")`. */
  function Strip(record: string): string
  {
    Join(Split(record, AFTER), "")
  }

  function Reverse(s: seq<string>): (r: seq<string>)
    ensures |r| == |s| && forall i :: 0 <= i < |s| ==> r[i] == s[|s| - 1 - i]
  {
    if s == [] then [] else Reverse(s[1..]) + [s[0]]
  }

  function Take(s: seq<string>, n: nat): seq<string>
  {
    if |s| > n then s[..n] else s
  }

  /** The records as they are laid out: the first ten in sight, the others folded away. */
  function Layout(records: seq<string>): string
  {
    if |records| > MAX_HISTORY_ENTRIES
    then "\n" + Join(records[..MAX_HISTORY_ENTRIES], "\n") + "\n"
         + (OPENING + "\n" + Join(records[MAX_HISTORY_ENTRIES..], "\n") + "\n" + CLOSING) + "\n"
    else "\n" + Join(records, "\n") + "\n"
  }

  function HistoryText(records: seq<string>): string
  {
    "\n" + BEFORE + Layout(records) + AFTER + "\n" + LEGEND
  }

  // ----- Reading the text back -----------------------------------------------------------

  lemma StampChars(w: string)
    requires IsStamp(w)
    ensures Free(w, '\n') && |w| == 30 && w[13] == ':' && IsDigit(w[0])
  {
    assert SHAPE[13] == ':' && SHAPE[0] == 'd' && '\n' !in SHAPE;
  }

  lemma NoColonNoStamp(s: string)
    requires Free(s, ':')
    ensures NoStamp(s)
  {
    hide IsStamp;
    forall i: nat ensures !StampAt(s, i) {
      if i + 30 <= |s| && IsStamp(s[i..i + 30]) {
        StampChars(s[i..i + 30]);
        assert false;
      }
    }
  }

  lemma NoStampLines(a: string, b: string)
    ensures NoStamp(a + "\n" + b) <==> NoStamp(a) && NoStamp(b)
  {
    hide StampAt;
    var s := a + "\n" + b;
    forall i: nat ensures StampAt(s, i) <==> StampAt(a, i) || (i > |a| && StampAt(b, i - |a| - 1)) {
      StampInOneLine(a, b, i);
    }
    forall i: nat ensures StampAt(b, i) ==> StampAt(s, i + |a| + 1) {
      assert StampAt(s, i + |a| + 1) <==> StampAt(a, i + |a| + 1) || StampAt(b, i);
    }
  }

  /** A stamp holds no newline, so it lies in the first part or in the second. */
  lemma StampInOneLine(a: string, b: string, i: nat)
    ensures StampAt(a + "\n" + b, i) <==> StampAt(a, i) || (i > |a| && StampAt(b, i - |a| - 1))
  {
    hide IsStamp;
    var s := a + "\n" + b;
    if i + 30 <= |a| {
      assert s[i..i + 30] == a[i..i + 30];
    } else if i > |a| {
      var k := i - |a| - 1;
      if i + 30 <= |s| { assert s[i..i + 30] == b[k..k + 30]; }
    } else if i + 30 <= |s| {
      assert s[i..i + 30][|a| - i] == '\n';
      if IsStamp(s[i..i + 30]) {
        StampChars(s[i..i + 30]);
        assert false;
      }
    }
  }

  // ----- What a reader sees --------------------------------------------------------------

  /** The icons are those the legend under the history explains. */
  lemma LegendExplains()
    ensures LEGEND == Icon(RunPassed) + " Passed\t" + Icon(RunFailed) + " Failed\t" + Icon(RunSkipped) + " Skipped\n"
  {
    var passed, failed, skipped := "&#10004; Passed\t", "&#10006; " + "Failed\t", "&#9723; Skipped\n";
    assert passed == Icon(RunPassed) + " Passed\t";
    assert failed == Icon(RunFailed) + " Failed\t";
    assert skipped == Icon(RunSkipped) + " Skipped\n";
    assert "&#10004; Passed\t&#10006; " == passed + "&#10006; ";
    assert "Failed\t&#9723; Skipped\n" == "Failed\t" + skipped;
  }

  lemma IconsDiffer(a: RunResult, b: RunResult)
    ensures Icon(a) == Icon(b) <==> a == b
    ensures Free(Icon(a), ']')
  {
    assert "&#10004;"[6] != "&#10006;"[6];
  }

  /** The text up to the first `c`, and the rest. */
  lemma FirstPart(x: string, s: string, y: string, t: string, c: char)
    requires Free(x, c) && Free(y, c) && x + [c] + s == y + [c] + t
    ensures x == y && s == t
  {
    var u, v := x + [c] + s, y + [c] + t;
    assert u[|x|] == c && v[|y|] == c;
    assert forall k :: 0 <= k < |x| ==> u[k] == x[k];
    assert forall k :: 0 <= k < |y| ==> v[k] == y[k];
    assert |x| == |y|;
    assert x == u[..|x|] && y == v[..|y|] && s == u[|x| + 1..] && t == v[|y| + 1..];
  }

  lemma {:induction false} RunTextFirst(runs: seq<(RunResult, string)>)
    requires runs != []
    ensures RunText(runs) == RunLink(runs[0]) + RunText(runs[1..])
  {
    hide RunLink;
    var front, last := runs[..|runs|-1], runs[|runs|-1];
    if |runs| > 1 {
      RunTextFirst(front);
      assert front[1..] == runs[1..][..|runs[1..]|-1];
    } else {
      assert front == [] && runs[1..] == [];
    }
  }

  lemma RunsSplit(a: (RunResult, string), s: string, b: (RunResult, string), t: string)
    requires Free(a.1, ')') && Free(b.1, ')') && RunLink(a) + s == RunLink(b) + t
    ensures a == b && s == t
  {
    hide Icon;
    var u, v := RunLink(a) + s, RunLink(b) + t;
    IconsDiffer(a.0, b.0);
    IconsDiffer(b.0, a.0);
    assert u == " [" + (Icon(a.0) + "]" + ("(" + a.1 + ")" + s));
    assert v == " [" + (Icon(b.0) + "]" + ("(" + b.1 + ")" + t));
    assert u[2..] == Icon(a.0) + "]" + ("(" + a.1 + ")" + s);
    assert v[2..] == Icon(b.0) + "]" + ("(" + b.1 + ")" + t);
    FirstPart(Icon(a.0), "(" + a.1 + ")" + s, Icon(b.0), "(" + b.1 + ")" + t, ']');
    var x, y := "(" + a.1 + ")" + s, "(" + b.1 + ")" + t;
    assert x[1..] == a.1 + ")" + s && y[1..] == b.1 + ")" + t;
    FirstPart(a.1, s, b.1, t, ')');
  }

  /** A record tells how every build went: no two lists of results with their links print alike. */
  lemma {:induction false} RunsAreTold(a: seq<(RunResult, string)>, b: seq<(RunResult, string)>)
    requires forall k :: 0 <= k < |a| ==> Free(a[k].1, ')')
    requires forall k :: 0 <= k < |b| ==> Free(b[k].1, ')')
    ensures RunText(a) == RunText(b) <==> a == b
  {
    hide RunText, RunLink, Free;
    if a != [] { RunTextFirst(a); RunLinkStarts(a[0]); }
    if b != [] { RunTextFirst(b); RunLinkStarts(b[0]); }
    RunTextEmpty();
    if a != [] && b != [] {
      RunsAreTold(a[1..], b[1..]);
      if RunText(a) == RunText(b) { RunsSplit(a[0], RunText(a[1..]), b[0], RunText(b[1..])); }
      assert a == [a[0]] + a[1..] && b == [b[0]] + b[1..];
    }
  }

  lemma RunLinkStarts(run: (RunResult, string))
    ensures RunLink(run) != ""
  {
  }

  lemma RunTextEmpty()
    ensures RunText([]) == ""
  {
  }

  lemma {:induction false} JoinFree(parts: seq<string>, c: char)
    requires c != '\n' && forall k :: 0 <= k < |parts| ==> Free(parts[k], c)
    ensures Free(Join(parts, "\n"), c)
  {
    if |parts| > 1 { JoinFree(parts[1..], c); }
  }

  /** More than ten records are folded, and the ten greatest stay in sight: they are the lines before the
      fold. */
  lemma FoldIff(records: seq<string>)
    requires forall k :: 0 <= k < |records| ==> Free(records[k], '<')
    ensures Contains(Layout(records), "<details>") <==> |records| > 10
    ensures |records| > 10 ==>
              exists rest :: Layout(records) == "\n" + Join(records[..10], "\n") + "\n\n" + "<details>" + rest
  {
    hide Join, At;
    if |records| > 10 {
      FoldedText(Join(records[..10], "\n"), Join(records[10..], "\n"));
    } else {
      JoinFree(records, '<');
      NoFold(Layout(records));
    }
  }

  lemma FoldedText(top: string, folded: string)
    ensures var s := "\n" + top + "\n" + (OPENING + "\n" + folded + "\n" + CLOSING) + "\n";
      Contains(s, "<details>") && exists rest :: s == "\n" + top + "\n\n" + "<details>" + rest
  {
    var mark, inner := "<details>", "\n\t<summary>" + "Older builds</summary><p>\n";
    assert OPENING == "\n" + mark + inner;
    RegroupOpening(top, mark, inner, folded, CLOSING);
    FoldAt("\n" + top + "\n\n", mark, inner + "\n" + folded + "\n" + CLOSING + "\n");
  }

  lemma RegroupOpening(top: string, mark: string, inner: string, folded: string, close: string)
    ensures "\n" + top + "\n" + ("\n" + mark + inner + "\n" + folded + "\n" + close) + "\n"
         == "\n" + top + "\n\n" + mark + (inner + "\n" + folded + "\n" + close + "\n")
  {
  }

  lemma FoldAt(a: string, b: string, c: string)
    ensures Contains(a + b + c, b)
  {
    assert At(a + b + c, b, |a|);
  }

  lemma NoFold(s: string)
    requires Free(s, '<')
    ensures !Contains(s, "<details>")
  {
    forall i: nat ensures !At(s, "<details>", i) {
      AtChars(s, "<details>", i);
      assert "<details>"[0] == '<';
    }
  }

  // ----- Searching the printed text ------------------------------------------------------

  lemma FindFirst(s: string, i: nat, j: nat)
    requires i + 30 <= j <= |s| && StampAt(s, i) && (forall k: nat :: k < i ==> !StampAt(s, k))
    requires OneLine(s, i + 30, j) && (j == |s| || s[j] == '\n')
    ensures FindRecords(s) == [s[i..j]] + FindRecords(s[j..])
  {
    hide StampAt;
    assert FirstStamp(s, 0) == Some(i);
    var e := LineEnd(s, i + 30);
    assert e == j;
  }

  lemma FindNone(s: string)
    requires NoStamp(s)
    ensures FindRecords(s) == []
  {
    hide StampAt;
  }

  lemma LineEndShift(a: string, b: string, i: nat)
    requires i <= |b|
    ensures LineEnd(a + "\n" + b, i + |a| + 1) == LineEnd(b, i) + |a| + 1
    decreases |b| - i
  {
    var s := a + "\n" + b;
    if i < |b| {
      assert s[i + |a| + 1] == b[i];
      LineEndShift(a, b, i + 1);
    }
  }

  /** A search passes over text that holds no stamp. */
  lemma SkipText(pre: string, rest: string)
    requires NoStamp(pre)
    ensures FindRecords(pre + "\n" + rest) == FindRecords(rest)
  {
    hide StampAt, FindRecords, LineEnd;
    var s := pre + "\n" + rest;
    var k := |pre| + 1;
    forall i: nat ensures StampAt(s, i) <==> i >= k && StampAt(rest, i - k) {
      StampInOneLine(pre, rest, i);
    }
    match FirstStamp(rest, 0)
    case None =>
      FindNone(rest);
      FindNone(s);
    case Some(i) =>
      StampInside(rest, i);
      var j := LineEnd(rest, i + 30);
      LineEndIs(rest, i + 30);
      FindFirst(rest, i, j);
      forall c: nat | c < i + k ensures !StampAt(s, c) {
      }
      LineEndShift(pre, rest, i + 30);
      LineEndIs(s, i + k + 30);
      FindFirst(s, i + k, j + k);
      assert s[k..] == rest;
      SliceDrop(s, k, i, j);
  }

  lemma StampInside(s: string, i: nat)
    requires StampAt(s, i)
    ensures i + 30 <= |s|
  {
  }

  lemma LineEndIs(s: string, i: nat)
    requires i <= |s|
    ensures var j := LineEnd(s, i); i <= j <= |s| && OneLine(s, i, j) && (j == |s| || s[j] == '\n')
  {
  }

  /** A printed record: a stamp, then no newline. */
  predicate RecordLine(r: string)
  {
    StampAt(r, 0) && Free(r, '\n')
  }

  /** A search takes a record that has a line of its own. */
  lemma TakeRecord(r: string, rest: string)
    requires RecordLine(r)
    ensures FindRecords(r + "\n" + rest) == [r] + FindRecords(rest)
  {
    hide FindRecords, IsStamp;
    var s := r + "\n" + rest;
    assert s[0..30] == r[0..30];
    FindFirst(s, 0, |r|);
    assert s[0..|r|] == r && s[|r|..] == "" + "\n" + rest;
    NoColonNoStamp("");
    SkipText("", rest);
  }

  lemma {:induction false} EachRecord(find: string -> seq<string>, records: seq<string>, rest: string)
    requires forall r, tail :: RecordLine(r) ==> find(r + "\n" + tail) == [r] + find(tail)
    requires records != [] && forall k :: 0 <= k < |records| ==> RecordLine(records[k])
    ensures find(Join(records, "\n") + "\n" + rest) == records + find(rest)
  {
    hide RecordLine;
    if |records| > 1 {
      assert RecordLine(records[0]);
      JoinTwo(records[0], records[1..], "\n");
      assert records == [records[0]] + records[1..];
      var tail := Join(records[1..], "\n") + "\n" + rest;
      assert Join(records, "\n") + "\n" + rest == records[0] + "\n" + tail;
      EachRecord(find, records[1..], rest);
      assert [records[0]] + (records[1..] + find(rest)) == records + find(rest);
    } else {
      assert RecordLine(records[0]);
      assert records == [records[0]];
    }
  }

  lemma TakeRecords(records: seq<string>, rest: string)
    requires records != [] && forall k :: 0 <= k < |records| ==> RecordLine(records[k])
    ensures FindRecords(Join(records, "\n") + "\n" + rest) == records + FindRecords(rest)
  {
    hide RecordLine;
    forall r, tail | RecordLine(r) ensures FindRecords(r + "\n" + tail) == [r] + FindRecords(tail) {
      TakeRecord(r, tail);
    }
    EachRecord(FindRecords, records, rest);
  }

  lemma FreeConcat(a: string, b: string)
    requires Free(a, ':') && Free(b, ':')
    ensures Free(a + b, ':')
  {
  }

  lemma MarksHaveNoColon()
    ensures Free(BEFORE, ':') && Free(AFTER, ':') && Free(CLOSING, ':')
  {
    assert ':' !in "<!------Latest History " && ':' !in "of Up To 10 runs------>";
    FreeConcat("<!------Latest History ", "of Up To 10 runs------>");
  }

  lemma LegendHasNoColon()
    ensures Free(LEGEND, ':') && Free(OPENING, ':')
  {
    assert ':' !in "&#10004; Passed\t&#10006; " && ':' !in "Failed\t&#9723; Skipped\n";
    FreeConcat("&#10004; Passed\t&#10006; ", "Failed\t&#9723; Skipped\n");
    assert ':' !in "\n<details>\n\t<summary>" && ':' !in "Older builds</summary><p>\n";
    FreeConcat("\n<details>\n\t<summary>", "Older builds</summary><p>\n");
  }

  lemma FixedLinesHaveNoStamp()
    ensures NoStamp(BEFORE) && NoStamp(AFTER) && NoStamp(LEGEND) && NoStamp(OPENING) && NoStamp(CLOSING) && NoStamp("")
  {
    hide NoStamp, Free;
    MarksHaveNoColon();
    LegendHasNoColon();
    EmptyIsFree();
    NoColonNoStamp(BEFORE);
    NoColonNoStamp(AFTER);
    NoColonNoStamp(LEGEND);
    NoColonNoStamp(OPENING);
    NoColonNoStamp(CLOSING);
    NoColonNoStamp("");
  }

  lemma EmptyIsFree()
    ensures Free("", ':')
  {
  }

  /** Records can be printed: there are some, and each has a line of its own. */
  ghost predicate Printable(records: seq<string>)
  {
    records != [] && forall k :: 0 <= k < |records| ==> RecordLine(records[k])
  }

  lemma RegroupFold(top: string, open: string, folded: string, close: string, after: string, rest: string)
    ensures "\n" + top + "\n" + (open + "\n" + folded + "\n" + close) + "\n" + after + rest
         == "" + "\n" + (top + "\n" + (open + "\n" + (folded + "\n" + (close + "\n" + (after + rest)))))
  {
  }

  lemma RegroupPlain(top: string, after: string, rest: string)
    ensures "\n" + top + "\n" + after + rest == "" + "\n" + (top + "\n" + (after + rest))
  {
  }

  lemma FoldRead(top: seq<string>, open: string, folded: seq<string>, close: string, end: string)
    requires Printable(top) && Printable(folded) && NoStamp(open) && NoStamp(close) && NoStamp(end)
    ensures FindRecords(Join(top, "\n") + "\n" + (open + "\n" + (Join(folded, "\n") + "\n" + (close + "\n" + end))))
         == top + folded
  {
    hide FindRecords, RecordLine, NoStamp, Join;
    TakeRecords(top, open + "\n" + (Join(folded, "\n") + "\n" + (close + "\n" + end)));
    SkipText(open, Join(folded, "\n") + "\n" + (close + "\n" + end));
    TakeRecords(folded, close + "\n" + end);
    SkipText(close, end);
    FindNone(end);
    assert folded + [] == folded;
  }

  lemma LayoutRead(records: seq<string>, rest: string)
    requires Printable(records) && NoStamp(AFTER + rest)
    ensures FindRecords(Layout(records) + AFTER + rest) == records
  {
    hide FindRecords, RecordLine, NoStamp, Join;
    FixedLinesHaveNoStamp();
    if |records| > MAX_HISTORY_ENTRIES {
      var top, folded := records[..MAX_HISTORY_ENTRIES], records[MAX_HISTORY_ENTRIES..];
      RegroupFold(Join(top, "\n"), OPENING, Join(folded, "\n"), CLOSING, AFTER, rest);
      var foldedText := OPENING + "\n" + (Join(folded, "\n") + "\n" + (CLOSING + "\n" + (AFTER + rest)));
      SkipText("", Join(top, "\n") + "\n" + foldedText);
      FoldRead(top, OPENING, folded, CLOSING, AFTER + rest);
      assert top + folded == records;
    } else {
      RegroupPlain(Join(records, "\n"), AFTER, rest);
      SkipText("", Join(records, "\n") + "\n" + (AFTER + rest));
      TakeRecords(records, AFTER + rest);
      FindNone(AFTER + rest);
      assert records + [] == records;
    }
  }

  lemma RegroupHistory(content: string, before: string, layout: string, after: string, end: string, trailer: string)
    requires layout != [] && layout[0] == '\n'
    ensures content + ("\n" + before + layout + after + "\n" + end) + trailer
         == content + "\n" + (before + "\n" + (layout[1..] + after + ("\n" + end + trailer)))
    ensures layout + after + ("\n" + end + trailer) == "" + "\n" + (layout[1..] + after + ("\n" + end + trailer))
  {
    assert layout == "\n" + layout[1..];
  }

  lemma LayoutStarts(records: seq<string>)
    ensures Layout(records) != [] && Layout(records)[0] == '\n'
  {
    hide Join;
  }

  lemma EndHasNoStamp(trailer: string)
    requires NoStamp(LEGEND + trailer)
    ensures NoStamp(AFTER + ("\n" + LEGEND + trailer))
  {
    hide NoStamp;
    FixedLinesHaveNoStamp();
    NoStampLines(AFTER, LEGEND + trailer);
    assert AFTER + "\n" + (LEGEND + trailer) == AFTER + ("\n" + LEGEND + trailer);
  }

  /** The records of a history are read back as written, in order, wherever the fold lies; text
      around the history does not matter as long as it holds no stamp. */
  lemma HistoryRoundTrip(content: string, records: seq<string>, trailer: string)
    requires Printable(records) && NoStamp(content) && NoStamp(LEGEND + trailer)
    ensures FindRecords(content + HistoryText(records) + trailer) == records
  {
    hide FindRecords, NoStamp, Printable, Layout;
    LayoutStarts(records);
    var tail := Layout(records)[1..] + AFTER + ("\n" + LEGEND + trailer);
    FixedLinesHaveNoStamp();
    EndHasNoStamp(trailer);
    LayoutRead(records, "\n" + LEGEND + trailer);
    RegroupHistory(content, BEFORE, Layout(records), AFTER, LEGEND, trailer);
    SkipText("", tail);
    SkipText(BEFORE, tail);
    SkipText(content, BEFORE + "\n" + tail);
  }
}
