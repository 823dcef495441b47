/**
 The issue of one flaky test (tools/flaky-test-reporter/github_issue.go,
 tools/flaky-test-reporter/result.go): it is opened by a flaky scan, closed after two passing
 ones, reopened by the next flaky one, and its comment is all the reporter remembers.
 */
module FlakyIssue {
  import opened Text
  import opened FlakyHistory
  import opened FlakyMerge

  const LATEST := "Latest result for this test: "
  const START := "\nLast build start time: "

  /** How many builds passed, skipped and failed the test. */
  datatype TestStat = TestStat(passed: nat, skipped: nat, failed: nat)

  datatype Status = Flaky | Passed | NotEnoughData | Failed

  predicate IsFlaky(ts: TestStat)
  {
    ts.failed > 0 && ts.passed != 0
  }

  predicate HasEnoughRuns(ts: TestStat, required: real)
  {
    (ts.passed + ts.failed) as real >= required
  }

  predicate IsPassed(ts: TestStat, required: real)
  {
    HasEnoughRuns(ts, required) && ts.failed == 0
  }

  function StatusOf(ts: TestStat, required: real): Status
  {
    if IsFlaky(ts) then Flaky
    else if IsPassed(ts, required) then Passed
    else if !HasEnoughRuns(ts, required) then NotEnoughData
    else Failed
  }

  function StatusText(s: Status): string
  {
    match s
    case Flaky => "Flaky"
    case Passed => "Passed"
    case NotEnoughData => "NotEnoughData"
    case Failed => "Failed"
  }

  predicate IsLetter(c: char)
  {
    'a' <= c <= 'z' || 'A' <= c <= 'Z'
  }

  /** `[a-zA-Z]*` at position `i`. */
  function Letters(s: string, i: nat): string
    decreases |s| - i
  {
    if i >= |s| || !IsLetter(s[i]) then "" else [s[i]] + Letters(s, i + 1)
  }

  /** The status the comment was written with. */
  function LatestStatus(comment: string): Option<string>
  {
    match Index(comment, LATEST)
    case None => None
    case Some(i) => Some(Letters(comment, i + |LATEST|))
  }

  /** One scan of the test. `summary` is the rendered line of failed runs; `stale` says that an issue
      closed by now counts as closed long ago and is not looked at. */
  datatype Scan = Scan(ts: TestStat, start: string, runs: seq<(RunResult, string)>, summary: string, stale: bool)

  datatype Issue = Issue(open: bool, comment: string)

  /** Settings of the reporter: the runs a pass needs, and the marker put under a new comment. */
  datatype Config = Config(required: real, marker: string)

  function Content(cfg: Config, scan: Scan): string
  {
    LATEST + StatusText(StatusOf(scan.ts, cfg.required)) + START + scan.start + "\n" + scan.summary
  }

  ghost function UpdateText(cfg: Config, scan: Scan, comment: string): string
  {
    Content(cfg, scan) + HistoryText(Merged(Record(scan.start, scan.runs), comment))
  }

  ghost function CreateText(cfg: Config, scan: Scan): string
  {
    UpdateText(cfg, scan, "") + "\n" + cfg.marker
  }

  predicate KnownStatus(text: string)
  {
    text == "Flaky" || text == "Passed" || text == "NotEnoughData" || text == "Failed"
  }

  /** `updateIssue`; None where the old comment carries an unknown status. */
  function Update(cfg: Config, issue: Issue, newComment: string, ts: TestStat): Option<Issue>
  {
    var latest := LatestStatus(issue.comment);
    if latest.Some? && !KnownStatus(latest.value) then None
    else
      var passedLastTime := latest == Some("Passed");
      var passed := IsPassed(ts, cfg.required);
      Some(Issue(
        if passed && issue.open && passedLastTime then false
        else if !passed && IsFlaky(ts) then true
        else issue.open,
        if !passed || issue.open then newComment else issue.comment))
  }

  /** The issue found for the test: one closed long ago is not looked at. */
  function Visible(tracked: Option<Issue>, scan: Scan): Option<Issue>
  {
    if tracked.Some? && !tracked.value.open && scan.stale then None else tracked
  }

  predicate Relevant(cfg: Config, scan: Scan)
  {
    IsFlaky(scan.ts) || IsPassed(scan.ts, cfg.required)
  }

  /** The per-test part of `processGithubIssuesForRepo`. */
  ghost function Process(cfg: Config, tracked: Option<Issue>, scan: Scan): Option<Issue>
  {
    if !Relevant(cfg, scan) then tracked
    else
      match Visible(tracked, scan)
      case Some(issue) =>
        if Contains(issue.comment, Content(cfg, scan)) then tracked
        else
          var updated := Update(cfg, issue, UpdateText(cfg, scan, issue.comment), scan.ts);
          if updated.None? then tracked else updated
      case None =>
        if IsFlaky(scan.ts) then Some(Issue(true, CreateText(cfg, scan))) else tracked
  }

  /** The GitHub call of an update that fails, if any: editing the comment, or closing or reopening the
      issue. */
  datatype Fault = NoFault | EditFails | StateFails

  /** `updateIssue` and whether it reports success. A failing edit leaves everything as it was; when the
      issue cannot be closed or reopened its comment has been edited already. */
  function UpdateWith(cfg: Config, issue: Issue, newComment: string, ts: TestStat, fault: Fault): (Issue, bool)
  {
    match Update(cfg, issue, newComment, ts)
    case None => (issue, false)
    case Some(now) =>
      if fault.EditFails? && (!IsPassed(ts, cfg.required) || issue.open) then (issue, false)
      else if fault.StateFails? && now.open != issue.open then (Issue(issue.open, now.comment), false)
      else (now, true)
  }

  /** An issue on GitHub with the reporter's comment. */
  class GithubIssue {
    var open: bool
    var comment: string

    function Value(): Issue
      reads this
    {
      Issue(open, comment)
    }

    constructor (open: bool, comment: string)
      ensures Value() == Issue(open, comment)
    {
      this.open, this.comment := open, comment;
    }

    method UpdateIssue(cfg: Config, newComment: string, ts: TestStat, fault: Fault) returns (ok: bool)
      modifies this
      ensures (Value(), ok) == UpdateWith(cfg, old(Value()), newComment, ts, fault)
    {
      var passedLastTime := false;
      var latestStatus := LatestStatus(comment);
      if latestStatus.Some? {
        if latestStatus.value == "Passed" {
          passedLastTime := true;
        } else if !KnownStatus(latestStatus.value) {
          return false;
        }
      }
      var wasOpen := open;
      if !IsPassed(ts, cfg.required) || wasOpen {
        if fault.EditFails? {
          return false;
        }
        comment := newComment;
      }
      if IsPassed(ts, cfg.required) {
        if wasOpen && passedLastTime {
          if fault.StateFails? {
            return false;
          }
          open := false;
        }
      } else if IsFlaky(ts) {
        if !wasOpen {
          if fault.StateFails? {
            return false;
          }
          open := true;
        }
      }
      ok := true;
    }
  }

  ghost function ValueOf(issue: GithubIssue?): Option<Issue>
    reads issue
  {
    if issue == null then None else Some(issue.Value())
  }

  lemma NoFaultIs(cfg: Config, issue: Issue, newComment: string, ts: TestStat)
    ensures UpdateWith(cfg, issue, newComment, ts, NoFault).0
         == if Update(cfg, issue, newComment, ts).None? then issue else Update(cfg, issue, newComment, ts).value
  {
    hide Update;
  }

  /** One scan of one test against the issue tracked for it. */
  method ProcessTest(cfg: Config, tracked: GithubIssue?, scan: Scan) returns (now: GithubIssue?)
    modifies tracked
    ensures ValueOf(now) == Process(cfg, old(ValueOf(tracked)), scan)
  {
    hide Contains, Content, HistoryText, Merged, Record, Update, UpdateWith, IsPassed;
    now := tracked;
    if tracked != null {
      NoFaultIs(cfg, tracked.Value(), UpdateText(cfg, scan, tracked.comment), scan.ts);
    }
    if !IsFlaky(scan.ts) && !IsPassed(scan.ts, cfg.required) {
      return;
    }
    var content := Content(cfg, scan);
    if tracked != null && (tracked.open || !scan.stale) {
      if Contains(tracked.comment, content) {
        return;
      }
      var history := CreateHistory(scan.start, scan.runs, tracked.comment);
      var ok := tracked.UpdateIssue(cfg, content + history, scan.ts, NoFault);
    } else if IsFlaky(scan.ts) {
      var history := CreateHistory(scan.start, scan.runs, "");
      now := new GithubIssue(true, content + history + "\n" + cfg.marker);
    }
  }

  // ----- The status is read back ---------------------------------------------------------

  lemma {:induction false} LettersAre(s: string, i: nat, w: string)
    requires i + |w| < |s| && s[i..i + |w|] == w
    requires (forall k :: 0 <= k < |w| ==> IsLetter(w[k])) && !IsLetter(s[i + |w|])
    ensures Letters(s, i) == w
    decreases |w|
  {
    if w != "" {
      assert s[i] == w[0] by { assert s[i..i + |w|][0] == s[i]; }
      assert s[i + 1..i + 1 + |w[1..]|] == w[1..] by { assert s[i..i + |w|][1..] == s[i + 1..i + |w|]; }
      LettersAre(s, i + 1, w[1..]);
      assert w == [w[0]] + w[1..];
    }
  }

  lemma LettersBehind(caption: string, w: string, tail: string)
    requires (forall k :: 0 <= k < |w| ==> IsLetter(w[k])) && tail != "" && !IsLetter(tail[0])
    ensures Letters(caption + w + tail, |caption|) == w
    ensures Index(caption + w + tail, caption) == Some(0)
  {
    hide Letters, Index, IsLetter;
    var s := caption + w + tail;
    assert s[|caption|..|caption| + |w|] == w && s[|caption| + |w|] == tail[0];
    LettersAre(s, |caption|, w);
    StartsAtZero(caption, w + tail);
    assert caption + (w + tail) == s;
  }

  lemma StartsAtZero(a: string, b: string)
    ensures Index(a + b, a) == Some(0)
  {
    assert At(a + b, a, 0);
  }

  lemma StatusLetters(status: Status)
    ensures forall k :: 0 <= k < |StatusText(status)| ==> IsLetter(StatusText(status)[k])
    ensures !IsLetter(START[0])
  {
  }

  lemma StatusRead(status: Status, rest: string)
    ensures LatestStatus(LATEST + StatusText(status) + START + rest) == Some(StatusText(status))
  {
    hide Letters, Index, IsLetter, StatusText;
    StatusLetters(status);
    var tail := START + rest;
    assert tail[0] == START[0];
    LettersBehind(LATEST, StatusText(status), tail);
    assert LATEST + StatusText(status) + tail == LATEST + StatusText(status) + START + rest;
  }

  lemma ContentStatus(cfg: Config, scan: Scan, rest: string)
    ensures LatestStatus(Content(cfg, scan) + rest) == Some(StatusText(StatusOf(scan.ts, cfg.required)))
  {
    hide LatestStatus, StatusText;
    var status := StatusOf(scan.ts, cfg.required);
    StatusRead(status, scan.start + "\n" + scan.summary + rest);
    assert Content(cfg, scan) + rest == LATEST + StatusText(status) + START + (scan.start + "\n" + scan.summary + rest);
  }

  lemma WrittenStatus(cfg: Config, scan: Scan, comment: string)
    ensures LatestStatus(UpdateText(cfg, scan, comment)) == Some(StatusText(StatusOf(scan.ts, cfg.required)))
    ensures LatestStatus(CreateText(cfg, scan)) == Some(StatusText(StatusOf(scan.ts, cfg.required)))
  {
    hide Content, HistoryText, Merged, LatestStatus;
    ContentStatus(cfg, scan, HistoryText(Merged(Record(scan.start, scan.runs), comment)));
    var h := HistoryText(Merged(Record(scan.start, scan.runs), ""));
    ContentStatus(cfg, scan, h + "\n" + cfg.marker);
    assert Content(cfg, scan) + h + "\n" + cfg.marker == Content(cfg, scan) + (h + "\n" + cfg.marker);
  }

  /** A closing that failed is made up for by the next passing scan: the comment was edited first, and
      says that the test passed. */
  lemma FailedCloseIsMadeUp(cfg: Config, issue: Issue, scan: Scan, rest: string, later: TestStat, newComment: string)
    requires issue.open && LatestStatus(issue.comment) == Some("Passed")
    requires IsPassed(scan.ts, cfg.required) && IsPassed(later, cfg.required)
    ensures var (left, ok) := UpdateWith(cfg, issue, Content(cfg, scan) + rest, scan.ts, StateFails);
      !ok && left.open && UpdateWith(cfg, left, newComment, later, NoFault) == (Issue(false, newComment), true)
  {
    hide Content, LatestStatus;
    ContentStatus(cfg, scan, rest);
  }

  // ----- Every sequence of scans ---------------------------------------------------------

  ghost function After(cfg: Config, scans: seq<Scan>): Option<Issue>
  {
    if scans == [] then None else Process(cfg, After(cfg, scans[..|scans|-1]), scans[|scans|-1])
  }

  /** Each scan tells something new: its summary is not in the comment yet. */
  ghost predicate News(cfg: Config, tracked: Option<Issue>, scan: Scan)
  {
    Relevant(cfg, scan) && Visible(tracked, scan).Some? ==>
      !Contains(Visible(tracked, scan).value.comment, Content(cfg, scan))
  }

  ghost predicate AllNews(cfg: Config, scans: seq<Scan>)
  {
    forall i :: 0 <= i < |scans| ==> News(cfg, After(cfg, scans[..i]), scans[i])
  }

  /** What one scan tells, from its counts: false if builds both passed and failed, true if none failed
      and enough of them passed, and else nothing. */
  function Verdict(cfg: Config, ts: TestStat): seq<bool>
  {
    if ts.failed > 0 && ts.passed > 0 then [false]
    else if ts.failed == 0 && ts.passed as real >= cfg.required then [true]
    else []
  }

  /** The verdicts of a sequence of scans, in order. */
  function Passes(cfg: Config, scans: seq<Scan>): seq<bool>
  {
    if scans == [] then [] else Passes(cfg, scans[..|scans|-1]) + Verdict(cfg, scans[|scans|-1].ts)
  }

  /** The reporter looks at exactly the scans that tell something. */
  lemma VerdictIs(cfg: Config, scan: Scan)
    ensures Verdict(cfg, scan.ts) == if Relevant(cfg, scan) then [IsPassed(scan.ts, cfg.required)] else []
    ensures Relevant(cfg, scan) ==> IsFlaky(scan.ts) != IsPassed(scan.ts, cfg.required)
  {
  }

  predicate LastTwoPassed(passes: seq<bool>)
  {
    |passes| >= 2 && passes[|passes|-1] && passes[|passes|-2]
  }

  /** What the issue knows about the scans so far. */
  ghost predicate Tracks(passes: seq<bool>, tracked: Option<Issue>)
  {
    match tracked
    case None => false !in passes
    case Some(issue) =>
      && false in passes
      && (issue.open <==> !LastTwoPassed(passes))
      && LatestStatus(issue.comment) == Some(if passes[|passes|-1] then "Passed" else "Flaky")
  }

  lemma TracksStep(cfg: Config, passes: seq<bool>, tracked: Option<Issue>, scan: Scan)
    requires Tracks(passes, tracked) && News(cfg, tracked, scan) && Relevant(cfg, scan)
    ensures Tracks(passes + [IsPassed(scan.ts, cfg.required)], Process(cfg, tracked, scan))
  {
    hide LatestStatus, UpdateText, CreateText, Content, Contains;
    WrittenStatus(cfg, scan, if tracked.Some? then tracked.value.comment else "");
    var passed := IsPassed(scan.ts, cfg.required);
    var now := passes + [passed];
    assert now[|now|-1] == passed && (|passes| > 0 ==> now[|now|-2] == passes[|passes|-1]);
    assert false in now <==> (false in passes || !passed);
  }

  lemma {:induction false} AfterTracks(cfg: Config, scans: seq<Scan>)
    requires AllNews(cfg, scans)
    ensures Tracks(Passes(cfg, scans), After(cfg, scans))
  {
    hide Tracks, News, Relevant, Process, IsPassed;
    if scans == [] {
      NothingTracked();
    } else {
      var before, last := scans[..|scans|-1], scans[|scans|-1];
      forall i | 0 <= i < |before| ensures News(cfg, After(cfg, before[..i]), before[i]) {
        assert before[..i] == scans[..i];
      }
      AfterTracks(cfg, before);
      VerdictIs(cfg, last);
      var passes := Passes(cfg, before);
      assert News(cfg, After(cfg, before), last);
      if Relevant(cfg, last) {
        TracksStep(cfg, passes, After(cfg, before), last);
        assert Passes(cfg, scans) == passes + [IsPassed(last.ts, cfg.required)];
      } else {
        IrrelevantScan(cfg, After(cfg, before), last);
        assert Passes(cfg, scans) == passes + [] == passes;
      }
    }
  }

  lemma NothingTracked()
    ensures Tracks([], None)
  {
  }

  /** Scans that failed throughout or lack data change nothing. */
  lemma IrrelevantScan(cfg: Config, tracked: Option<Issue>, scan: Scan)
    requires !Relevant(cfg, scan)
    ensures Process(cfg, tracked, scan) == tracked
    ensures StatusOf(scan.ts, cfg.required) == NotEnoughData || StatusOf(scan.ts, cfg.required) == Failed
  {
  }

  function RelevantScans(cfg: Config, scans: seq<Scan>): seq<Scan>
  {
    if scans == [] then []
    else
      var last := scans[|scans|-1];
      RelevantScans(cfg, scans[..|scans|-1]) + if Verdict(cfg, last.ts) != [] then [last] else []
  }

  /** Scans that failed throughout, or had no failure and too few passes, might as well not have been
      made. */
  lemma {:induction false} IrrelevantScansVanish(cfg: Config, scans: seq<Scan>)
    ensures After(cfg, RelevantScans(cfg, scans)) == After(cfg, scans)
  {
    hide Process, Relevant, Verdict;
    if scans != [] {
      var before, last := scans[..|scans|-1], scans[|scans|-1];
      IrrelevantScansVanish(cfg, before);
      VerdictIs(cfg, last);
      var kept := RelevantScans(cfg, before);
      if Relevant(cfg, last) {
        assert (kept + [last])[..|kept|] == kept;
      } else {
        IrrelevantScan(cfg, After(cfg, before), last);
        assert kept + [] == kept;
      }
    }
  }

  /** Over every sequence of scans: there is an issue exactly if one of them was flaky, and it is
      closed exactly if the last two scans that were Flaky or Passed were both Passed. */
  lemma ClosedIffLastTwoPassed(cfg: Config, scans: seq<Scan>)
    requires AllNews(cfg, scans)
    ensures After(cfg, scans).Some? <==> false in Passes(cfg, scans)
    ensures After(cfg, scans).Some? ==> (!After(cfg, scans).value.open <==> LastTwoPassed(Passes(cfg, scans)))
  {
    AfterTracks(cfg, scans);
  }

  lemma AfterMore(cfg: Config, scans: seq<Scan>, scan: Scan)
    ensures After(cfg, scans + [scan]) == Process(cfg, After(cfg, scans), scan)
    ensures Passes(cfg, scans + [scan]) == Passes(cfg, scans) + Verdict(cfg, scan.ts)
    ensures AllNews(cfg, scans + [scan]) ==> AllNews(cfg, scans) && News(cfg, After(cfg, scans), scan)
  {
    hide Process, News, Verdict;
    var more := scans + [scan];
    assert more[..|more|-1] == scans;
    if AllNews(cfg, more) {
      forall i | 0 <= i < |scans| ensures News(cfg, After(cfg, scans[..i]), scans[i]) {
        assert more[..i] == scans[..i] && more[i] == scans[i];
      }
      assert more[..|scans|] == scans && more[|scans|] == scan;
    }
  }

  /** What one more scan does, from its counts. A test that failed in every build, or had no failure and
      too few passes, leaves everything as it is; one that both passed and failed leaves an open issue. */
  lemma OneMoreScan(cfg: Config, scans: seq<Scan>, scan: Scan)
    requires AllNews(cfg, scans + [scan])
    ensures scan.ts.failed > 0 && scan.ts.passed == 0 ==> After(cfg, scans + [scan]) == After(cfg, scans)
    ensures scan.ts.failed == 0 && (scan.ts.passed as real) < cfg.required ==>
        After(cfg, scans + [scan]) == After(cfg, scans)
    ensures scan.ts.failed > 0 && scan.ts.passed > 0 ==>
        After(cfg, scans + [scan]).Some? && After(cfg, scans + [scan]).value.open
  {
    hide Process, AllNews, After, Passes, News;
    AfterMore(cfg, scans, scan);
    VerdictIs(cfg, scan);
    if Verdict(cfg, scan.ts) == [] {
      IrrelevantScan(cfg, After(cfg, scans), scan);
    } else {
      ClosedIffLastTwoPassed(cfg, scans + [scan]);
    }
  }

  /** Where there is an issue, two scans in a row without failure and with enough runs close it; one of
      them after a flaky scan does not. */
  lemma TwoPassesClose(cfg: Config, scans: seq<Scan>, a: Scan, b: Scan)
    requires AllNews(cfg, scans + [a] + [b]) && After(cfg, scans).Some?
    requires b.ts.failed == 0 && b.ts.passed as real >= cfg.required && a.ts.passed > 0
    ensures After(cfg, scans + [a] + [b]).Some?
    ensures a.ts.failed == 0 && a.ts.passed as real >= cfg.required ==> !After(cfg, scans + [a] + [b]).value.open
    ensures a.ts.failed > 0 ==> After(cfg, scans + [a] + [b]).value.open
  {
    hide Process, AllNews, After, Passes, News;
    AfterMore(cfg, scans, a);
    AfterMore(cfg, scans + [a], b);
    ClosedIffLastTwoPassed(cfg, scans);
    ClosedIffLastTwoPassed(cfg, scans + [a] + [b]);
  }

  // ----- Scans that are repeated or come late --------------------------------------------

  /** Processing a scan a second time changes nothing, whatever the issue was. */
  lemma ScanTwice(cfg: Config, tracked: Option<Issue>, scan: Scan)
    ensures Process(cfg, Process(cfg, tracked, scan), scan) == Process(cfg, tracked, scan)
  {
    hide Content, HistoryText, Merged, Record, Contains, LatestStatus;
    var h := HistoryText(Merged(Record(scan.start, scan.runs), if tracked.Some? then tracked.value.comment else ""));
    ContainsPrefix(Content(cfg, scan), h);
    var g := HistoryText(Merged(Record(scan.start, scan.runs), ""));
    ContainsPrefix(Content(cfg, scan), g + "\n" + cfg.marker);
    assert Content(cfg, scan) + g + "\n" + cfg.marker == Content(cfg, scan) + (g + "\n" + cfg.marker);
  }

  lemma ContainsPrefix(a: string, b: string)
    ensures Contains(a + b, a)
  {
    assert At(a + b, a, 0);
  }

  /** A flaky scan that finds the issue closed long ago opens a new one, which remembers nothing of the
      old. */
  lemma OldIssueIsReplaced(cfg: Config, closed: Issue, scan: Scan)
    requires !closed.open && scan.stale && scan.ts.failed > 0 && scan.ts.passed > 0
    ensures Process(cfg, Some(closed), scan) == Process(cfg, None, scan)
    ensures Process(cfg, None, scan).Some? && Process(cfg, None, scan).value.open
  {
    hide CreateText, Content, Contains;
  }

  // ----- The history over every sequence of scans ----------------------------------------

  /** The scan writes the comment of the issue it finds: it does so unless it passed on a closed
      issue. */
  ghost predicate Edits(cfg: Config, tracked: Option<Issue>, scan: Scan)
  {
    Relevant(cfg, scan) && Visible(tracked, scan).Some?
    && (!IsPassed(scan.ts, cfg.required) || Visible(tracked, scan).value.open)
  }

  ghost predicate Creates(cfg: Config, tracked: Option<Issue>, scan: Scan)
  {
    Relevant(cfg, scan) && Visible(tracked, scan).None? && IsFlaky(scan.ts)
  }

  /** All records ever written to the comment of the issue tracked now. */
  ghost function Written(cfg: Config, scans: seq<Scan>): set<string>
  {
    if scans == [] then {}
    else
      var before, last := scans[..|scans|-1], scans[|scans|-1];
      var tracked := After(cfg, before);
      var record := Record(last.start, last.runs);
      if Creates(cfg, tracked, last) then {record}
      else if Edits(cfg, tracked, last) then Written(cfg, before) + {record}
      else Written(cfg, before)
  }

  /** The printed time of a build, and links that stay on their line. */
  ghost predicate CleanScan(scan: Scan)
  {
    && |scan.start| == 29 && IsStamp(scan.start + ":")
    && (forall k :: 0 <= k < |scan.runs| ==> OnOneLine(scan.runs[k].1))
    && NoStamp(scan.summary)
  }

  predicate CleanRecord(r: string)
  {
    RecordLine(r) && Free(r, '<')
  }

  predicate OnOneLine(s: string)
  {
    Free(s, '\n') && Free(s, '<')
  }

  lemma RunLinkClean(run: (RunResult, string))
    requires OnOneLine(run.1)
    ensures OnOneLine(RunLink(run))
  {
    var r := RunLink(run);
    assert OnOneLine(Icon(run.0)) && OnOneLine(" [") && OnOneLine("](") && OnOneLine(")");
    assert r == " [" + Icon(run.0) + ("](" + run.1 + ")");
  }

  lemma {:induction false} RunTextClean(runs: seq<(RunResult, string)>)
    requires forall k :: 0 <= k < |runs| ==> OnOneLine(runs[k].1)
    ensures OnOneLine(RunText(runs))
  {
    hide RunLink, OnOneLine;
    if runs == [] {
      CleanConcat("", "");
    } else {
      RunTextClean(runs[..|runs|-1]);
      RunLinkClean(runs[|runs|-1]);
      CleanConcat(RunText(runs[..|runs|-1]), RunLink(runs[|runs|-1]));
    }
  }

  lemma CleanConcat(a: string, b: string)
    ensures OnOneLine("")
    ensures OnOneLine(a) && OnOneLine(b) ==> OnOneLine(a + b)
  {
  }

  lemma StampClean(w: string)
    requires IsStamp(w)
    ensures Free(w, '<') && Free(w, '\n') && |w| == 30
  {
    StampChars(w);
    assert '<' !in SHAPE;
  }

  lemma RecordClean(scan: Scan)
    requires CleanScan(scan)
    ensures CleanRecord(Record(scan.start, scan.runs))
  {
    hide IsStamp, RunText;
    var w := scan.start + ":";
    var r := Record(scan.start, scan.runs);
    RunTextClean(scan.runs);
    StampClean(w);
    assert r == w + " " + RunText(scan.runs);
    assert r[0..30] == w;
  }

  lemma StripClean(r: string)
    requires Free(r, '<')
    ensures Strip(r) == r
  {
    hide Split, Join, At;
    forall j: nat ensures !At(r, AFTER, j) {
      AtStarts(r, j);
    }
    SplitNone(r, AFTER);
    JoinSingle(r, "");
  }

  /** A record with the marker of the end behind it is told without the marker. */
  lemma StripDropsMarker(r: string)
    requires Free(r, '<')
    ensures Strip(r + AFTER) == r
  {
    hide Split, Join, At;
    forall j: nat | j < |r| ensures !At(r + AFTER, AFTER, j) {
      AtChars(r + AFTER, AFTER, j);
      assert AFTER[0] == '<';
    }
    assert r + AFTER + "" == r + AFTER;
    SplitFirst(r, AFTER, "");
    forall j: nat ensures !At("", AFTER, j) {
      AtStarts("", j);
    }
    SplitNone("", AFTER);
    JoinTwo(r, [""], "");
    JoinSingle("", "");
  }

  lemma AtStarts(r: string, j: nat)
    requires Free(r, '<')
    ensures !At(r, AFTER, j)
  {
    AtChars(r, AFTER, j);
    assert AFTER[0] == '<';
  }

  lemma ContentHasNoStamp(cfg: Config, scan: Scan)
    requires CleanScan(scan)
    ensures NoStamp(Content(cfg, scan))
  {
    hide NoStamp, IsStamp, StatusText;
    var first := LATEST + StatusText(StatusOf(scan.ts, cfg.required));
    var second := "Last build start time: " + scan.start;
    FirstLine(StatusOf(scan.ts, cfg.required));
    SecondLine(scan.start);
    NoStampLines(second, scan.summary);
    NoStampLines(first, second + "\n" + scan.summary);
    assert Content(cfg, scan) == first + "\n" + (second + "\n" + scan.summary);
  }

  /** A stamp starts with a digit. */
  lemma StampNeedsDigit(s: string, i: nat)
    ensures StampAt(s, i) ==> i < |s| && IsDigit(s[i])
  {
    if i + 30 <= |s| && IsStamp(s[i..i + 30]) { StampChars(s[i..i + 30]); }
  }

  lemma FirstLine(status: Status)
    ensures NoStamp(LATEST + StatusText(status))
  {
    hide StampAt;
    var s := LATEST + StatusText(status);
    forall i: nat ensures !StampAt(s, i) {
      StampNeedsDigit(s, i);
      assert forall k :: 0 <= k < |LATEST| ==> !IsDigit(LATEST[k]);
    }
  }

  /** The start time alone is one character short of a stamp. */
  lemma SecondLine(start: string)
    requires |start| == 29
    ensures NoStamp("Last build start time: " + start)
  {
    hide IsStamp;
    var caption := "Last build start time: ";
    var s := caption + start;
    assert |caption| == 23;
    forall i: nat ensures !StampAt(s, i) {
      StampNeedsDigit(s, i);
      assert forall k :: 0 <= k < 23 ==> !IsDigit(caption[k]);
      assert i < 23 ==> s[i] == caption[i];
    }
  }

  ghost predicate AllClean(all: set<string>)
  {
    forall r :: r in all ==> CleanRecord(r)
  }

  lemma TopClean(all: set<string>)
    requires AllClean(all)
    ensures StripAll(Top(all)) == Top(all)
    ensures all != {} ==> Printable(Top(all))
  {
    hide Strip, RecordLine, Descending;
    var d := Descending(all);
    DescendingIs(all);
    forall i | 0 <= i < |d| ensures d[i] in all && CleanRecord(d[i]) && Strip(d[i]) == d[i] {
      assert d[i] in Elements(d);
      StripClean(d[i]);
    }
    EmptyElements(d);
  }

  /** What the comment says about the records written so far. */
  ghost predicate Carries(tracked: Option<Issue>, all: set<string>)
  {
    AllClean(all) && (tracked.Some? ==> FindRecords(tracked.value.comment) == Top(all))
  }

  /** The comment of an update carries the records of the comment before and the new one. */
  lemma WrittenRecords(cfg: Config, scan: Scan, comment: string, all: set<string>, trailer: string)
    requires CleanScan(scan) && NoStamp(LEGEND + trailer)
    requires AllClean(all) && FindRecords(comment) == Top(all)
    requires Record(scan.start, scan.runs) !in Top(all)
    ensures FindRecords(UpdateText(cfg, scan, comment) + trailer) == Top(all + {Record(scan.start, scan.runs)})
    ensures AllClean(all + {Record(scan.start, scan.runs)})
  {
    hide FindRecords, NoStamp, CleanScan, CleanRecord, Top, Merged, HistoryText, Content, Printable, StripAll, Record;
    var record := Record(scan.start, scan.runs);
    RecordClean(scan);
    TopClean(all);
    MergeKeepsTop(record, comment, all);
    TopClean(all + {record});
    ContentHasNoStamp(cfg, scan);
    HistoryRoundTrip(Content(cfg, scan), Top(all + {record}), trailer);
  }

  lemma NothingWritten()
    ensures FindRecords("") == Top({}) && NoStamp(LEGEND + "") && AllClean({})
  {
    hide StampAt, SortedList;
    FixedLinesHaveNoStamp();
    assert LEGEND + "" == LEGEND;
    assert !StampAt("", 0) by { StampInside0(); }
    var s := SortedList({});
    EmptyElements(s);
  }

  lemma StampInside0()
    ensures !StampAt("", 0)
  {
  }

  lemma MarkerHasNoStamp(marker: string)
    requires NoStamp(marker)
    ensures NoStamp(LEGEND + ("\n" + marker))
  {
    hide NoStamp;
    FixedLinesHaveNoStamp();
    NoStampLines(LEGEND, marker);
    assert LEGEND + "\n" + marker == LEGEND + ("\n" + marker);
  }

  /** What one scan does to the comment. */
  lemma CommentAfter(cfg: Config, passes: seq<bool>, tracked: Option<Issue>, scan: Scan)
    requires Tracks(passes, tracked) && News(cfg, tracked, scan)
    ensures var now := Process(cfg, tracked, scan);
      if Creates(cfg, tracked, scan) then now.Some? && now.value.comment == CreateText(cfg, scan)
      else if Edits(cfg, tracked, scan) then
        now.Some? && tracked.Some? && now.value.comment == UpdateText(cfg, scan, tracked.value.comment)
      else now.Some? == tracked.Some? && (now.Some? ==> now.value.comment == tracked.value.comment)
  {
    hide LatestStatus, UpdateText, CreateText, Content, Contains;
  }

  lemma CarriesStep(cfg: Config, passes: seq<bool>, tracked: Option<Issue>, scan: Scan, all: set<string>)
    requires Tracks(passes, tracked) && News(cfg, tracked, scan) && CleanScan(scan) && NoStamp(cfg.marker)
    requires Carries(tracked, all)
    requires Edits(cfg, tracked, scan) ==> Record(scan.start, scan.runs) !in Top(all)
    ensures Carries(Process(cfg, tracked, scan),
                    if Creates(cfg, tracked, scan) then {Record(scan.start, scan.runs)}
                    else if Edits(cfg, tracked, scan) then all + {Record(scan.start, scan.runs)}
                    else all)
  {
    hide Tracks, News, Process, Creates, Edits, CleanScan, NoStamp, FindRecords, Record, UpdateText, Top, AllClean;
    CommentAfter(cfg, passes, tracked, scan);
    var record := Record(scan.start, scan.runs);
    if Creates(cfg, tracked, scan) {
      NothingWritten();
      MarkerHasNoStamp(cfg.marker);
      NotInEmptyTop(record);
      WrittenRecords(cfg, scan, "", {}, "\n" + cfg.marker);
      assert {} + {record} == {record};
      assert CreateText(cfg, scan) == UpdateText(cfg, scan, "") + ("\n" + cfg.marker);
    } else if Edits(cfg, tracked, scan) {
      NothingWritten();
      WrittenRecords(cfg, scan, tracked.value.comment, all, "");
      var text := UpdateText(cfg, scan, tracked.value.comment);
      assert text + "" == text;
    }
  }

  lemma NotInEmptyTop(record: string)
    ensures record !in Top({})
  {
    EmptyElements(SortedList({}));
  }

  /** No record written is among the 60 greatest already. */
  ghost predicate FreshRecords(cfg: Config, scans: seq<Scan>)
  {
    forall i :: 0 <= i < |scans| ==>
      Edits(cfg, After(cfg, scans[..i]), scans[i]) ==>
      Record(scans[i].start, scans[i].runs) !in Top(Written(cfg, scans[..i]))
  }

  lemma {:induction false} AfterCarries(cfg: Config, scans: seq<Scan>)
    requires AllNews(cfg, scans) && FreshRecords(cfg, scans) && NoStamp(cfg.marker)
    requires forall i :: 0 <= i < |scans| ==> CleanScan(scans[i])
    ensures Carries(After(cfg, scans), Written(cfg, scans))
  {
    hide Tracks, News, Process, Creates, Edits, CleanScan, NoStamp, Record, Top;
    if scans == [] {
      NothingWritten();
    } else {
      var before, last := scans[..|scans|-1], scans[|scans|-1];
      forall i | 0 <= i < |before|
        ensures News(cfg, After(cfg, before[..i]), before[i])
        ensures Edits(cfg, After(cfg, before[..i]), before[i]) ==>
            Record(before[i].start, before[i].runs) !in Top(Written(cfg, before[..i]))
      {
        assert before[..i] == scans[..i];
      }
      AfterCarries(cfg, before);
      AfterTracks(cfg, before);
      assert News(cfg, After(cfg, before), last);
      CarriesStep(cfg, Passes(cfg, before), After(cfg, before), last, Written(cfg, before));
    }
  }

  /** Incremental history equals full history, over every sequence of scans: the records read out of
      the comment are the 60 greatest of all ever written to it, greatest first, none lost or
      changed on the way through the text. */
  lemma HistoryIsComplete(cfg: Config, scans: seq<Scan>)
    requires AllNews(cfg, scans) && FreshRecords(cfg, scans) && NoStamp(cfg.marker)
    requires forall i :: 0 <= i < |scans| ==> CleanScan(scans[i])
    requires After(cfg, scans).Some?
    ensures FindRecords(After(cfg, scans).value.comment) == Top(Written(cfg, scans))
    ensures StrictlyDescending(Top(Written(cfg, scans)))
    ensures |Written(cfg, scans)| <= MAX_RECORDS ==>
        Elements(FindRecords(After(cfg, scans).value.comment)) == Written(cfg, scans)
  {
    hide FindRecords, Written, AllNews, FreshRecords, CleanScan, Descending;
    AfterCarries(cfg, scans);
    DescendingIs(Written(cfg, scans));
    DescendingLength(Descending(Written(cfg, scans)));
  }

  // ----- The history, whatever is scanned ------------------------------------------------

  /** The records the comment remembers: each write adds its record, and where the list is full an old
      one goes. */
  ghost function Remembered(cfg: Config, scans: seq<Scan>): set<string>
  {
    if scans == [] then {}
    else
      var before, last := scans[..|scans|-1], scans[|scans|-1];
      var tracked := After(cfg, before);
      var record := Record(last.start, last.runs);
      if Creates(cfg, tracked, last) then {record}
      else if Edits(cfg, tracked, last) then Remember(Remembered(cfg, before), record)
      else Remembered(cfg, before)
  }

  /** The comment holds these records, some of them perhaps twice. */
  ghost predicate Holds(tracked: Option<Issue>, all: set<string>)
  {
    && AllClean(all) && |all| <= MAX_RECORDS
    && (tracked.Some? ==> Elements(FindRecords(tracked.value.comment)) == all)
  }

  lemma StripAllClean(records: seq<string>, all: set<string>)
    requires Elements(records) == all && AllClean(all)
    ensures StripAll(records) == records
  {
    hide Strip, RecordLine;
    forall i | 0 <= i < |records| ensures Strip(records[i]) == records[i] {
      assert records[i] in Elements(records);
      StripClean(records[i]);
    }
  }

  lemma MergedIsPrintable(records: seq<string>, all: set<string>, x: string)
    requires records != [] && AllClean(all) && CleanRecord(x) && forall r :: r in records ==> r in all || r == x
    ensures Printable(records) && AllClean(Elements(records))
  {
    hide RecordLine;
    forall i | 0 <= i < |records| ensures RecordLine(records[i]) {
      assert records[i] in records;
    }
  }

  lemma MergedNotEmpty(current: string, comment: string)
    ensures Merged(current, comment) != []
  {
    hide StripAll, FindRecords, Sort, SortedList, Less;
    var l := [current] + SortedList(Elements(StripAll(FindRecords(comment))));
    assert |Sort(l)| == |multiset(Sort(l))| == |multiset(l)| == |l|;
  }

  lemma WrittenSet(cfg: Config, scan: Scan, comment: string, all: set<string>, trailer: string)
    requires CleanScan(scan) && NoStamp(LEGEND + trailer)
    requires AllClean(all) && |all| <= MAX_RECORDS && Elements(FindRecords(comment)) == all
    ensures var record := Record(scan.start, scan.runs);
      && Elements(FindRecords(UpdateText(cfg, scan, comment) + trailer)) == Remember(all, record)
      && AllClean(Remember(all, record)) && |Remember(all, record)| <= MAX_RECORDS
  {
    hide FindRecords, NoStamp, CleanScan, CleanRecord, Merged, HistoryText, Content, Printable, StripAll, Record;
    hide Remember, AllClean;
    var record := Record(scan.start, scan.runs);
    RecordClean(scan);
    StripAllClean(FindRecords(comment), all);
    WriteRemembers(record, comment, all);
    MergedNotEmpty(record, comment);
    MergedIsPrintable(Merged(record, comment), all, record);
    ContentHasNoStamp(cfg, scan);
    HistoryRoundTrip(Content(cfg, scan), Merged(record, comment), trailer);
  }

  lemma RememberFirst(x: string)
    ensures Remember({}, x) == {x} && Elements(FindRecords("")) == {}
  {
    hide StampAt, SortedList;
    NoStampInNothing();
    var d := Descending({x});
    DescendingIs({x});
    DescendingLength(d);
    assert {} + {x} == {x};
    assert Top({x}) == d;
  }

  lemma NoStampInNothing()
    ensures !StampAt("", 0)
  {
  }

  lemma HoldsStep(cfg: Config, passes: seq<bool>, tracked: Option<Issue>, scan: Scan, all: set<string>)
    requires Tracks(passes, tracked) && News(cfg, tracked, scan) && CleanScan(scan) && NoStamp(cfg.marker)
    requires Holds(tracked, all)
    ensures Holds(Process(cfg, tracked, scan),
                  if Creates(cfg, tracked, scan) then {Record(scan.start, scan.runs)}
                  else if Edits(cfg, tracked, scan) then Remember(all, Record(scan.start, scan.runs))
                  else all)
  {
    hide Tracks, News, Process, Creates, Edits, CleanScan, NoStamp, FindRecords, Record, UpdateText, Remember, AllClean;
    CommentAfter(cfg, passes, tracked, scan);
    var record := Record(scan.start, scan.runs);
    NothingWritten();
    if Creates(cfg, tracked, scan) {
      MarkerHasNoStamp(cfg.marker);
      RememberFirst(record);
      WrittenSet(cfg, scan, "", {}, "\n" + cfg.marker);
      assert CreateText(cfg, scan) == UpdateText(cfg, scan, "") + ("\n" + cfg.marker);
    } else if Edits(cfg, tracked, scan) {
      WrittenSet(cfg, scan, tracked.value.comment, all, "");
      var text := UpdateText(cfg, scan, tracked.value.comment);
      assert text + "" == text;
    }
  }

  /** Over every sequence of scans, repeated records included: the comment holds exactly the records
      remembered, never more than sixty. */
  lemma {:induction false} HistoryWithRepeats(cfg: Config, scans: seq<Scan>)
    requires AllNews(cfg, scans) && NoStamp(cfg.marker)
    requires forall i :: 0 <= i < |scans| ==> CleanScan(scans[i])
    ensures |Remembered(cfg, scans)| <= MAX_RECORDS
    ensures After(cfg, scans).Some? ==>
        Elements(FindRecords(After(cfg, scans).value.comment)) == Remembered(cfg, scans)
    ensures AllClean(Remembered(cfg, scans))
  {
    hide Tracks, News, Process, Creates, Edits, CleanScan, NoStamp, Record, Remember, FindRecords, AllClean;
    if scans == [] {
      NothingWritten();
    } else {
      var before, last := scans[..|scans|-1], scans[|scans|-1];
      forall i | 0 <= i < |before| ensures News(cfg, After(cfg, before[..i]), before[i]) {
        assert before[..i] == scans[..i];
      }
      HistoryWithRepeats(cfg, before);
      AfterTracks(cfg, before);
      assert News(cfg, After(cfg, before), last);
      HoldsStep(cfg, Passes(cfg, before), After(cfg, before), last, Remembered(cfg, before));
    }
  }
}
