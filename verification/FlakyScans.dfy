/**
 Scans that tell something new (tools/flaky-test-reporter/github_issue.go).

 The run theorems of the module FlakyIssue ask that a scan is not in the comment yet and that its
 record is not among those remembered. Both follow from the scans alone: it is enough that their last
 builds started at different times, and that links and summaries do not imitate the caption of the
 comment.
 */
module FlakyScans {
  import opened Text
  import opened FlakyHistory
  import opened FlakyMerge
  import opened FlakyIssue

  ghost predicate NoCaption(s: string)
  {
    forall i: nat :: !At(s, LATEST, i)
  }

  /** No space is followed by a small letter. */
  predicate Spaced(s: string)
  {
    forall k :: 0 <= k && k + 1 < |s| && s[k] == ' ' ==> !('a' <= s[k + 1] <= 'z')
  }

  /** Links are URLs and hold no space; the summary does not hold the caption of the comment. */
  ghost predicate TidyScan(scan: Scan)
  {
    && CleanScan(scan) && NoCaption(scan.summary)
    && forall k :: 0 <= k < |scan.runs| ==> Free(scan.runs[k].1, ' ')
  }

  ghost predicate TidyMarker(marker: string)
  {
    NoStamp(marker) && NoCaption(marker)
  }

  /** Tidy scans whose last builds started at different times. */
  ghost predicate DistinctScans(scans: seq<Scan>)
  {
    && (forall i :: 0 <= i < |scans| ==> TidyScan(scans[i]))
    && forall i, j :: 0 <= i < j < |scans| ==> scans[i].start != scans[j].start
  }

  // ----- Where the caption can be --------------------------------------------------------

  lemma CaptionChars(s: string, i: nat)
    ensures At(s, LATEST, i) ==> i + 29 <= |s| && s[i] == 'L' && s[i + 2] == 't' && s[i + 6] == ' ' && s[i + 7] == 'r'
                                 && s[i + 27] == ':'
    ensures At(s, LATEST, i) ==> forall c :: i <= c < i + 29 ==> s[c] != '\n'
  {
    AtChars(s, LATEST, i);
    assert At(s, LATEST, i) ==> forall c :: i <= c < i + 29 ==> s[c] == LATEST[c - i] by {
      if At(s, LATEST, i) {
        forall c | i <= c < i + 29 ensures s[c] == LATEST[c - i] {
          assert s[i + (c - i)] == LATEST[c - i];
        }
      }
    }
    assert |LATEST| == 29 && '\n' !in LATEST;
    assert LATEST[0] == 'L' && LATEST[2] == 't' && LATEST[6] == ' ' && LATEST[7] == 'r' && LATEST[27] == ':';
  }

  lemma CaptionInOneLine(a: string, b: string, i: nat)
    ensures At(a + "\n" + b, LATEST, i) <==> At(a, LATEST, i) || (i > |a| && At(b, LATEST, i - |a| - 1))
  {
    var s := a + "\n" + b;
    assert |LATEST| == 29;
    if i + 29 <= |a| {
      assert s[i..i + 29] == a[i..i + 29];
    } else if i > |a| {
      var k := i - |a| - 1;
      if i + 29 <= |s| { assert s[i..i + 29] == b[k..k + 29]; }
    } else {
      CaptionChars(s, i);
      assert s[|a|] == '\n';
    }
  }

  lemma NoCaptionLines(a: string, b: string)
    ensures NoCaption(a + "\n" + b) <==> NoCaption(a) && NoCaption(b)
  {
    hide At;
    var s := a + "\n" + b;
    forall i: nat ensures At(s, LATEST, i) <==> At(a, LATEST, i) || (i > |a| && At(b, LATEST, i - |a| - 1)) {
      CaptionInOneLine(a, b, i);
    }
    forall i: nat ensures At(b, LATEST, i) ==> At(s, LATEST, i + |a| + 1) {
      assert At(s, LATEST, i + |a| + 1) <==> At(a, LATEST, i + |a| + 1) || At(b, LATEST, i);
    }
  }

  lemma NoColonNoCaption(s: string)
    requires Free(s, ':')
    ensures NoCaption(s)
  {
    hide At;
    forall i: nat ensures !At(s, LATEST, i) {
      CaptionChars(s, i);
    }
  }

  lemma SpacedNoCaption(s: string)
    requires Spaced(s)
    ensures NoCaption(s)
  {
    hide At;
    forall i: nat ensures !At(s, LATEST, i) {
      CaptionChars(s, i);
    }
  }

  lemma SpacedConcat(a: string, b: string)
    requires Spaced(a) && Spaced(b) && (a == "" || a[|a|-1] != ' ' || b == "" || !('a' <= b[0] <= 'z'))
    ensures Spaced(a + b)
  {
  }

  lemma RunLinkSpaced(run: (RunResult, string))
    requires Free(run.1, ' ')
    ensures var r := RunLink(run); Spaced(r) && r != "" && r[0] == ' ' && r[|r|-1] == ')'
  {
    var tail := "[" + Icon(run.0) + ("](" + run.1 + ")");
    assert Free("[" + Icon(run.0), ' ') && Free("](" + run.1 + ")", ' ');
    assert RunLink(run) == " " + tail;
    assert Free(tail, ' ');
  }

  lemma {:induction false} RunTextSpaced(runs: seq<(RunResult, string)>)
    requires forall k :: 0 <= k < |runs| ==> Free(runs[k].1, ' ')
    ensures Spaced(RunText(runs)) && (RunText(runs) != "" ==> RunText(runs)[0] == ' ')
  {
    hide RunLink;
    if runs != [] {
      RunTextSpaced(runs[..|runs|-1]);
      RunLinkSpaced(runs[|runs|-1]);
      SpacedConcat(RunText(runs[..|runs|-1]), RunLink(runs[|runs|-1]));
    }
  }

  lemma StampSpaced(w: string)
    requires IsStamp(w)
    ensures Spaced(w) && w != "" && w[|w|-1] == ':'
  {
    forall k | 0 <= k && k + 1 < |w| && w[k] == ' ' ensures !('a' <= w[k + 1] <= 'z') {
      assert Fits(w[k], SHAPE[k]) && Fits(w[k + 1], SHAPE[k + 1]);
      assert SHAPE[k] == ' ';
      assert k == 10 || k == 19 || k == 25;
    }
    assert Fits(w[29], SHAPE[29]);
  }

  lemma RecordSpaced(scan: Scan)
    requires TidyScan(scan)
    ensures Spaced(Record(scan.start, scan.runs))
  {
    hide IsStamp, RunText, NoCaption;
    var w := scan.start + ":";
    StampSpaced(w);
    RunTextSpaced(scan.runs);
    var text := RunText(scan.runs);
    SpacedConcat(w, " ");
    SpacedConcat(w + " ", text);
    assert Record(scan.start, scan.runs) == w + " " + text;
  }

  // ----- The comment holds the caption once ----------------------------------------------

  lemma {:induction false} JoinedNoCaption(records: seq<string>)
    requires forall k :: 0 <= k < |records| ==> NoCaption(records[k])
    ensures NoCaption(Join(records, "\n"))
  {
    hide NoCaption;
    if records == [] {
      NoColonNoCaption("");
    } else if |records| > 1 {
      JoinedNoCaption(records[1..]);
      NoCaptionLines(records[0], Join(records[1..], "\n"));
    }
  }

  lemma LayoutNoCaption(records: seq<string>, rest: string)
    requires forall k :: 0 <= k < |records| ==> NoCaption(records[k])
    requires NoCaption(AFTER + rest)
    ensures NoCaption(Layout(records) + AFTER + rest)
  {
    hide NoCaption, Join;
    MarksHaveNoColon();
    LegendHasNoColon();
    NoColonNoCaption("");
    if |records| > MAX_HISTORY_ENTRIES {
      var top, folded := Join(records[..MAX_HISTORY_ENTRIES], "\n"), Join(records[MAX_HISTORY_ENTRIES..], "\n");
      JoinedNoCaption(records[..MAX_HISTORY_ENTRIES]);
      JoinedNoCaption(records[MAX_HISTORY_ENTRIES..]);
      NoColonNoCaption(OPENING);
      NoColonNoCaption(CLOSING);
      RegroupFold(top, OPENING, folded, CLOSING, AFTER, rest);
      NoCaptionLines(CLOSING, AFTER + rest);
      NoCaptionLines(folded, CLOSING + "\n" + (AFTER + rest));
      NoCaptionLines(OPENING, folded + "\n" + (CLOSING + "\n" + (AFTER + rest)));
      NoCaptionLines(top, OPENING + "\n" + (folded + "\n" + (CLOSING + "\n" + (AFTER + rest))));
      NoCaptionLines("", top + "\n" + (OPENING + "\n" + (folded + "\n" + (CLOSING + "\n" + (AFTER + rest)))));
    } else {
      var all := Join(records, "\n");
      JoinedNoCaption(records);
      RegroupPlain(all, AFTER, rest);
      NoCaptionLines(all, AFTER + rest);
      NoCaptionLines("", all + "\n" + (AFTER + rest));
    }
  }

  lemma EndNoCaption(trailer: string)
    requires NoCaption(LEGEND + trailer)
    ensures NoCaption(AFTER + ("\n" + LEGEND + trailer))
  {
    hide NoCaption;
    MarksHaveNoColon();
    NoColonNoCaption(AFTER);
    NoCaptionLines(AFTER, LEGEND + trailer);
    assert AFTER + "\n" + (LEGEND + trailer) == AFTER + ("\n" + LEGEND + trailer);
  }

  lemma HistoryNoCaption(summary: string, records: seq<string>, trailer: string)
    requires NoCaption(summary) && NoCaption(LEGEND + trailer)
    requires forall k :: 0 <= k < |records| ==> NoCaption(records[k])
    ensures NoCaption(summary + HistoryText(records) + trailer)
  {
    hide NoCaption, Layout;
    LayoutStarts(records);
    EndNoCaption(trailer);
    LayoutNoCaption(records, "\n" + LEGEND + trailer);
    var tail := Layout(records)[1..] + AFTER + ("\n" + LEGEND + trailer);
    RegroupHistory(summary, BEFORE, Layout(records), AFTER, LEGEND, trailer);
    MarksHaveNoColon();
    NoColonNoCaption(BEFORE);
    NoColonNoCaption("");
    NoCaptionLines("", tail);
    NoCaptionLines(BEFORE, tail);
    NoCaptionLines(summary, BEFORE + "\n" + tail);
  }

  lemma FirstCaption(status: Status, i: nat)
    ensures At(LATEST + StatusText(status), LATEST, i) ==> i == 0
  {
    hide At;
    var s := LATEST + StatusText(status);
    CaptionChars(s, i);
    assert |LATEST| == 29 && |StatusText(status)| <= 13;
    assert forall k :: 1 <= k < 29 ==> LATEST[k] != 'L';
    assert i < 29 ==> s[i] == LATEST[i];
  }

  lemma SecondCaption(start: string)
    requires |start| == 29 && IsStamp(start + ":")
    ensures NoCaption("Last build start time: " + start)
  {
    hide At, IsStamp;
    var caption := "Last build start time: ";
    var s := caption + start;
    assert |caption| == 23;
    StampChars(start + ":");
    assert start[0] == (start + ":")[0];
    forall i: nat ensures !At(s, LATEST, i) {
      CaptionChars(s, i);
      assert forall k :: 1 <= k < 23 ==> caption[k] != 'L';
      assert i < 23 ==> s[i] == caption[i];
      assert i == 23 ==> s[i] == start[0];
      assert i == 0 ==> s[2] == caption[2] == 's';
    }
  }

  lemma RegroupContent(first: string, start: string, summary: string, history: string, trailer: string)
    ensures first + ("\nLast build start time: ") + start + "\n" + summary + history + trailer
         == first + "\n" + (("Last build start time: " + start) + "\n" + (summary + history + trailer))
  {
    assert "\nLast build start time: " == "\n" + "Last build start time: ";
  }

  /** The caption stands at the start of the comment and nowhere else. */
  lemma CaptionOnce(cfg: Config, scan: Scan, records: seq<string>, trailer: string, i: nat)
    requires TidyScan(scan) && NoCaption(LEGEND + trailer)
    requires forall k :: 0 <= k < |records| ==> NoCaption(records[k])
    ensures At(Content(cfg, scan) + HistoryText(records) + trailer, LATEST, i) ==> i == 0
  {
    hide At, NoCaption, HistoryText, IsStamp, StatusText;
    var status := StatusOf(scan.ts, cfg.required);
    var first, second := LATEST + StatusText(status), "Last build start time: " + scan.start;
    var rest := scan.summary + HistoryText(records) + trailer;
    HistoryNoCaption(scan.summary, records, trailer);
    SecondCaption(scan.start);
    NoCaptionLines(second, rest);
    RegroupContent(first, scan.start, scan.summary, HistoryText(records), trailer);
    CaptionInOneLine(first, second + "\n" + rest, i);
    FirstCaption(status, i);
    NoCaptionAt(second + "\n" + rest);
  }

  lemma NoCaptionAt(s: string)
    requires NoCaption(s)
    ensures forall i: nat :: !At(s, LATEST, i)
  {
  }

  lemma ContentStarts(cfg: Config, scan: Scan)
    ensures LATEST <= Content(cfg, scan)
    ensures var k := 29 + |StatusText(StatusOf(scan.ts, cfg.required))| + 24;
      k + |scan.start| <= |Content(cfg, scan)| && Content(cfg, scan)[k..k + |scan.start|] == scan.start
  {
    hide StatusText;
    assert |LATEST| == 29 && |START| == 24;
  }

  lemma PrefixAt(s: string, content: string, p: nat)
    requires At(s, content, p) && LATEST <= content
    ensures At(s, LATEST, p)
  {
    assert s[p..p + |content|][..|LATEST|] == s[p..p + |LATEST|];
  }

  /** A scan of another time is not in the comment. */
  lemma OtherScanAbsent(cfg: Config, scan: Scan, records: seq<string>, trailer: string, other: Scan)
    requires TidyScan(scan) && TidyScan(other) && NoCaption(LEGEND + trailer) && scan.start != other.start
    requires forall k :: 0 <= k < |records| ==> NoCaption(records[k])
    ensures !Contains(Content(cfg, scan) + HistoryText(records) + trailer, Content(cfg, other))
  {
    hide At, NoCaption, HistoryText, IsStamp, StatusText, Content, LatestStatus;
    var s := Content(cfg, scan) + HistoryText(records) + trailer;
    var content := Content(cfg, other);
    forall p: nat | p <= |s| ensures !At(s, content, p) {
      ContentStarts(cfg, other);
      CaptionOnce(cfg, scan, records, trailer, p);
      if At(s, content, p) {
        PrefixAt(s, content, p);
        assert s == Content(cfg, scan) + (HistoryText(records) + trailer);
        SameStart(cfg, scan, HistoryText(records) + trailer, other, s);
      }
    }
  }

  lemma SameStart(cfg: Config, scan: Scan, rest: string, other: Scan, s: string)
    requires s == Content(cfg, scan) + rest && |scan.start| == |other.start| == 29
    requires At(s, Content(cfg, other), 0)
    ensures scan.start == other.start
  {
    hide StatusText, LatestStatus, Content;
    var content := Content(cfg, other);
    assert s == content + s[|content|..] by { assert s[0..|content|] == content; }
    ContentStatus(cfg, scan, rest);
    ContentStatus(cfg, other, s[|content|..]);
    var k := 29 + |StatusText(StatusOf(scan.ts, cfg.required))| + 24;
    ContentStarts(cfg, scan);
    ContentStarts(cfg, other);
    assert s[k..k + 29] == Content(cfg, scan)[k..k + 29];
    assert s[k..k + 29] == content[k..k + 29];
  }

  // ----- Every sequence of such scans ----------------------------------------------------

  /** The comment is the text of one of the scans, with the sixty greatest of the records written. */
  ghost predicate Shaped(cfg: Config, scans: seq<Scan>, tracked: Option<Issue>, all: set<string>)
  {
    tracked.Some? ==>
      exists j, trailer :: 0 <= j < |scans| && WrittenBy(cfg, scans[j], trailer, tracked.value.comment, all)
  }

  ghost predicate WrittenBy(cfg: Config, scan: Scan, trailer: string, comment: string, all: set<string>)
  {
    (trailer == "" || trailer == "\n" + cfg.marker)
    && comment == Content(cfg, scan) + HistoryText(Top(all)) + trailer
  }

  lemma WrittenText(cfg: Config, scan: Scan, comment: string, all: set<string>)
    requires CleanScan(scan) && AllClean(all) && FindRecords(comment) == Top(all)
    requires Record(scan.start, scan.runs) !in Top(all)
    ensures var record := Record(scan.start, scan.runs);
      UpdateText(cfg, scan, comment) == Content(cfg, scan) + HistoryText(Top(all + {record}))
  {
    hide FindRecords, Top, Merged, HistoryText, Content, StripAll, Record;
    TopClean(all);
    MergeKeepsTop(Record(scan.start, scan.runs), comment, all);
  }

  lemma ShapedStep(cfg: Config, passes: seq<bool>, scans: seq<Scan>, tracked: Option<Issue>, all: set<string>)
    requires scans != []
    requires var before, scan := scans[..|scans|-1], scans[|scans|-1];
      && Tracks(passes, tracked) && News(cfg, tracked, scan) && CleanScan(scan)
      && Carries(tracked, all) && Shaped(cfg, before, tracked, all)
      && (Edits(cfg, tracked, scan) ==> Record(scan.start, scan.runs) !in Top(all))
    ensures var scan := scans[|scans|-1];
      Shaped(cfg, scans, Process(cfg, tracked, scan),
             if Creates(cfg, tracked, scan) then {Record(scan.start, scan.runs)}
             else if Edits(cfg, tracked, scan) then all + {Record(scan.start, scan.runs)}
             else all)
  {
    var before, scan := scans[..|scans|-1], scans[|scans|-1];
    CommentAfter(cfg, passes, tracked, scan);
    hide Tracks, News, Process, Creates, Edits, CleanScan, Carries, Shaped, Record, UpdateText, CreateText, Top;
    var now := Process(cfg, tracked, scan);
    if Creates(cfg, tracked, scan) {
      ShapedByCreation(cfg, scans, now.value);
    } else if Edits(cfg, tracked, scan) {
      ShapedByEdit(cfg, scans, tracked.value, now.value, all);
    } else {
      StaysShaped(cfg, scans, tracked, now, all);
    }
  }

  lemma ShapedByCreation(cfg: Config, scans: seq<Scan>, now: Issue)
    requires scans != [] && CleanScan(scans[|scans|-1]) && now.comment == CreateText(cfg, scans[|scans|-1])
    ensures Shaped(cfg, scans, Some(now), {Record(scans[|scans|-1].start, scans[|scans|-1].runs)})
  {
    hide CleanScan, FindRecords, Record, UpdateText, CreateText, Top, AllClean, Content, HistoryText;
    var scan := scans[|scans|-1];
    var record := Record(scan.start, scan.runs);
    NothingWritten();
    NotInEmptyTop(record);
    WrittenText(cfg, scan, "", {});
    assert {} + {record} == {record};
    CreateTextIs(cfg, scan);
    assert WrittenBy(cfg, scans[|scans|-1], "\n" + cfg.marker, now.comment, {record});
  }

  lemma ShapedByEdit(cfg: Config, scans: seq<Scan>, tracked: Issue, now: Issue, all: set<string>)
    requires scans != [] && CleanScan(scans[|scans|-1]) && Carries(Some(tracked), all)
    requires now.comment == UpdateText(cfg, scans[|scans|-1], tracked.comment)
    requires Record(scans[|scans|-1].start, scans[|scans|-1].runs) !in Top(all)
    ensures Shaped(cfg, scans, Some(now), all + {Record(scans[|scans|-1].start, scans[|scans|-1].runs)})
  {
    hide CleanScan, FindRecords, Record, UpdateText, Top, AllClean, Content, HistoryText;
    var scan := scans[|scans|-1];
    var record := Record(scan.start, scan.runs);
    WrittenText(cfg, scan, tracked.comment, all);
    assert now.comment == now.comment + "";
    assert WrittenBy(cfg, scans[|scans|-1], "", now.comment, all + {record});
  }

  lemma StaysShaped(cfg: Config, scans: seq<Scan>, tracked: Option<Issue>, now: Option<Issue>, all: set<string>)
    requires scans != [] && Shaped(cfg, scans[..|scans|-1], tracked, all)
    requires now.Some? == tracked.Some? && (now.Some? ==> now.value.comment == tracked.value.comment)
    ensures Shaped(cfg, scans, now, all)
  {
    hide WrittenBy;
    var before := scans[..|scans|-1];
    if now.Some? {
      var j, trailer :| 0 <= j < |before| && WrittenBy(cfg, before[j], trailer, tracked.value.comment, all);
      assert WrittenBy(cfg, scans[j], trailer, now.value.comment, all);
    }
  }

  lemma CreateTextIs(cfg: Config, scan: Scan)
    ensures CreateText(cfg, scan) == UpdateText(cfg, scan, "") + ("\n" + cfg.marker)
  {
    hide UpdateText;
  }

  lemma {:induction false} AfterShaped(cfg: Config, scans: seq<Scan>)
    requires AllNews(cfg, scans) && FreshRecords(cfg, scans) && NoStamp(cfg.marker)
    requires forall i :: 0 <= i < |scans| ==> CleanScan(scans[i])
    ensures Shaped(cfg, scans, After(cfg, scans), Written(cfg, scans))
  {
    hide Tracks, News, Process, Creates, Edits, CleanScan, NoStamp, Record, Top, Carries, Shaped;
    if scans == [] {
      NothingShaped(cfg);
    } else {
      var before, last := scans[..|scans|-1], scans[|scans|-1];
      forall i | 0 <= i < |before|
        ensures News(cfg, After(cfg, before[..i]), before[i])
        ensures Edits(cfg, After(cfg, before[..i]), before[i]) ==>
            Record(before[i].start, before[i].runs) !in Top(Written(cfg, before[..i]))
      {
        assert before[..i] == scans[..i];
      }
      AfterShaped(cfg, before);
      AfterCarries(cfg, before);
      AfterTracks(cfg, before);
      assert News(cfg, After(cfg, before), last);
      ShapedStep(cfg, Passes(cfg, before), scans, After(cfg, before), Written(cfg, before));
    }
  }

  lemma NothingShaped(cfg: Config)
    ensures Shaped(cfg, [], None, {})
  {
  }

  lemma {:induction false} WrittenFrom(cfg: Config, scans: seq<Scan>, r: string)
    requires r in Written(cfg, scans)
    ensures exists j :: 0 <= j < |scans| && r == Record(scans[j].start, scans[j].runs)
  {
    hide Process, Creates, Edits, Record;
    var before, last := scans[..|scans|-1], scans[|scans|-1];
    if r == Record(last.start, last.runs) {
      assert last == scans[|scans|-1];
    } else {
      WrittenFrom(cfg, before, r);
      var j :| 0 <= j < |before| && r == Record(before[j].start, before[j].runs);
      assert scans[j] == before[j];
    }
  }

  lemma RecordShowsStart(scan: Scan, other: Scan)
    requires |scan.start| == |other.start|
    requires Record(scan.start, scan.runs) == Record(other.start, other.runs)
    ensures scan.start == other.start
  {
    hide RunText;
    assert Record(scan.start, scan.runs)[..|scan.start|] == scan.start;
    assert Record(other.start, other.runs)[..|other.start|] == other.start;
  }

  lemma TopMembers(all: set<string>)
    ensures forall r :: r in Top(all) ==> r in all
  {
    TopBound(all);
    assert forall r :: r in Top(all) ==> r in Elements(Top(all));
  }

  /** All records written by tidy scans are free of the caption. */
  lemma TopNoCaption(cfg: Config, scans: seq<Scan>)
    requires forall i :: 0 <= i < |scans| ==> TidyScan(scans[i])
    ensures forall k :: 0 <= k < |Top(Written(cfg, scans))| ==> NoCaption(Top(Written(cfg, scans))[k])
  {
    hide Top, Written, NoCaption, TidyScan, Record;
    var top := Top(Written(cfg, scans));
    TopMembers(Written(cfg, scans));
    forall k | 0 <= k < |top| ensures NoCaption(top[k]) {
      WrittenFrom(cfg, scans, top[k]);
      var j :| 0 <= j < |scans| && top[k] == Record(scans[j].start, scans[j].runs);
      RecordSpaced(scans[j]);
      SpacedNoCaption(top[k]);
    }
  }

  lemma TrailerNoCaption(trailer: string, marker: string)
    requires trailer == "" || trailer == "\n" + marker
    requires NoCaption(marker)
    ensures NoCaption(LEGEND + trailer)
  {
    hide NoCaption;
    LegendHasNoColon();
    NoColonNoCaption(LEGEND);
    if trailer == "" {
      assert LEGEND + trailer == LEGEND;
    } else {
      NoCaptionLines(LEGEND, marker);
      assert LEGEND + "\n" + marker == LEGEND + trailer;
    }
  }

  lemma TidyIsClean(scan: Scan)
    requires TidyScan(scan)
    ensures CleanScan(scan) && |scan.start| == 29
  {
  }

  /** The last of distinct scans is not in the comment, nor is its record. */
  lemma LastIsNew(cfg: Config, before: seq<Scan>, last: Scan)
    requires DistinctScans(before + [last]) && TidyMarker(cfg.marker)
    requires AllNews(cfg, before) && FreshRecords(cfg, before)
    ensures News(cfg, After(cfg, before), last)
    ensures Record(last.start, last.runs) !in Top(Written(cfg, before))
  {
    hide AllNews, FreshRecords, After, Written, TidyScan, Top, Record, Content, Contains, HistoryText;
    hide NoCaption, NoStamp;
    var scans := before + [last];
    forall i | 0 <= i < |before| ensures TidyScan(before[i]) && CleanScan(before[i]) && before[i].start != last.start
        && |before[i].start| == 29 {
      assert scans[i] == before[i] && scans[|before|] == last;
      TidyIsClean(scans[i]);
    }
    assert TidyScan(last) by { assert scans[|before|] == last; }
    TidyIsClean(last);
    AfterShaped(cfg, before);
    TopNoCaption(cfg, before);
    var tracked := After(cfg, before);
    if tracked.Some? {
      var j, trailer :| 0 <= j < |before|
        && WrittenBy(cfg, before[j], trailer, tracked.value.comment, Written(cfg, before));
      TrailerNoCaption(trailer, cfg.marker);
      OtherScanAbsent(cfg, before[j], Top(Written(cfg, before)), trailer, last);
    }
    TopMembers(Written(cfg, before));
    if Record(last.start, last.runs) in Written(cfg, before) {
      WrittenFrom(cfg, before, Record(last.start, last.runs));
      var j :| 0 <= j < |before| && Record(last.start, last.runs) == Record(before[j].start, before[j].runs);
      RecordShowsStart(last, before[j]);
    }
  }

  /** Distinct scans are news, each of them, and bring fresh records: what the run theorems ask for
      follows from the scans alone. */
  lemma {:induction false} DistinctScansAreNews(cfg: Config, scans: seq<Scan>)
    requires DistinctScans(scans) && TidyMarker(cfg.marker)
    ensures AllNews(cfg, scans) && FreshRecords(cfg, scans)
    ensures NoStamp(cfg.marker) && forall i :: 0 <= i < |scans| ==> CleanScan(scans[i])
  {
    hide News, Edits, TidyScan, After, Written, Top, Record, NoStamp, NoCaption;
    if scans != [] {
      var before, last := scans[..|scans|-1], scans[|scans|-1];
      DistinctScansAreNews(cfg, before);
      assert scans == before + [last];
      LastIsNew(cfg, before, last);
      TidyIsClean(last);
      forall i | 0 <= i < |scans|
        ensures News(cfg, After(cfg, scans[..i]), scans[i]) && CleanScan(scans[i])
        ensures Edits(cfg, After(cfg, scans[..i]), scans[i]) ==>
            Record(scans[i].start, scans[i].runs) !in Top(Written(cfg, scans[..i]))
      {
        if i < |before| {
          assert scans[..i] == before[..i] && scans[i] == before[i];
        } else {
          assert scans[..i] == before;
        }
      }
    }
  }

  /** For distinct scans: the issue is closed exactly if the last two that were Flaky or Passed were both
      Passed, and its comment holds the sixty greatest of all records written to it, greatest first. */
  lemma IssueOfDistinctScans(cfg: Config, scans: seq<Scan>)
    requires DistinctScans(scans) && TidyMarker(cfg.marker)
    ensures After(cfg, scans).Some? <==> false in Passes(cfg, scans)
    ensures After(cfg, scans).Some? ==>
        && (!After(cfg, scans).value.open <==> LastTwoPassed(Passes(cfg, scans)))
        && FindRecords(After(cfg, scans).value.comment) == Top(Written(cfg, scans))
  {
    hide After, Passes, Written, Top, FindRecords, AllNews, FreshRecords, NoStamp, NoCaption, DistinctScans, CleanScan;
    DistinctScansAreNews(cfg, scans);
    ClosedIffLastTwoPassed(cfg, scans);
    if After(cfg, scans).Some? { HistoryIsComplete(cfg, scans); }
  }

  /** A scan of a build that started at noon of the `d`-th of January 2021. */
  function NoonScan(d: char, ts: TestStat): Scan
  {
    Scan(ts, "2021-01-0" + [d] + " 12:00:00 +0000 UTC", [], "", false)
  }

  predicate FitsAll(w: string, shape: string)
  {
    |w| == |shape| && forall k :: 0 <= k < |w| ==> Fits(w[k], shape[k])
  }

  lemma FitsConcat(a: string, shapeA: string, b: string, shapeB: string)
    requires FitsAll(a, shapeA) && FitsAll(b, shapeB)
    ensures FitsAll(a + b, shapeA + shapeB)
  {
    hide Fits;
  }

  lemma StampFits(w: string)
    ensures FitsAll(w, SHAPE) ==> IsStamp(w)
  {
  }

  lemma NoonIsStamp(d: char)
    requires IsDigit(d)
    ensures IsStamp("2021-01-0" + [d] + " 12:00:00 +0000 UTC" + ":")
  {
    var day, time, zone := "2021-01-0" + [d], " 12:00:00", " +0000 UTC:";
    assert FitsAll("2021-01-0", "dddd-dd-d") && FitsAll([d], "d");
    assert FitsAll(time, " dd:dd:dd") && FitsAll(zone, " sdddd UUU:");
    hide Fits, FitsAll;
    FitsConcat("2021-01-0", "dddd-dd-d", [d], "d");
    FitsConcat(day, "dddd-dd-dd", time, " dd:dd:dd");
    FitsConcat(day + time, "dddd-dd-dd dd:dd:dd", zone, " sdddd UUU:");
    assert "dddd-dd-d" + "d" == "dddd-dd-dd" && "dddd-dd-dd" + " dd:dd:dd" == "dddd-dd-dd dd:dd:dd";
    assert "dddd-dd-dd dd:dd:dd" + " sdddd UUU:" == SHAPE;
    assert day + time + zone == "2021-01-0" + [d] + " 12:00:00 +0000 UTC" + ":";
    StampFits(day + time + zone);
  }

  lemma NoonScanIsTidy(d: char, ts: TestStat)
    requires IsDigit(d)
    ensures TidyScan(NoonScan(d, ts))
  {
    hide IsStamp, NoStamp, NoCaption;
    NoonIsStamp(d);
    NoColonNoCaption("");
    NoColonNoStamp("");
  }

  /** There are such scans, and the promise comes true for them: flaky, passed, passed, and the issue is
      closed; flaky again, and it is open. */
  lemma NoonScans(cfg: Config)
    requires TidyMarker(cfg.marker) && cfg.required <= 1.0
    ensures var flaky, passed := TestStat(1, 0, 1), TestStat(1, 0, 0);
      var scans := [NoonScan('1', flaky), NoonScan('2', passed), NoonScan('3', passed)];
      && DistinctScans(scans) && DistinctScans(scans + [NoonScan('4', flaky)])
      && After(cfg, scans).Some? && !After(cfg, scans).value.open
      && After(cfg, scans + [NoonScan('4', flaky)]).Some? && After(cfg, scans + [NoonScan('4', flaky)]).value.open
  {
    hide After, TidyScan, TidyMarker, FindRecords, Written, Top;
    var flaky, passed := TestStat(1, 0, 1), TestStat(1, 0, 0);
    var a, b, c, d := NoonScan('1', flaky), NoonScan('2', passed), NoonScan('3', passed), NoonScan('4', flaky);
    NoonScanIsTidy('1', flaky);
    NoonScanIsTidy('2', passed);
    NoonScanIsTidy('3', passed);
    NoonScanIsTidy('4', flaky);
    StartsDiffer('1', '2', flaky, passed);
    StartsDiffer('1', '3', flaky, passed);
    StartsDiffer('1', '4', flaky, flaky);
    StartsDiffer('2', '3', passed, passed);
    StartsDiffer('2', '4', passed, flaky);
    StartsDiffer('3', '4', passed, flaky);
    hide NoonScan;
    FourPasses(cfg, a, b, c, d);
    IssueOfDistinctScans(cfg, [a, b, c]);
    IssueOfDistinctScans(cfg, [a, b, c] + [d]);
  }

  lemma StartsDiffer(d: char, e: char, ts: TestStat, us: TestStat)
    requires d != e
    ensures NoonScan(d, ts).start != NoonScan(e, us).start
    ensures NoonScan(d, ts).ts == ts && NoonScan(e, us).ts == us
  {
    assert NoonScan(d, ts).start[9] == d && NoonScan(e, us).start[9] == e;
  }

  lemma FourPasses(cfg: Config, a: Scan, b: Scan, c: Scan, d: Scan)
    requires cfg.required <= 1.0 && a.ts == d.ts == TestStat(1, 0, 1) && b.ts == c.ts == TestStat(1, 0, 0)
    ensures Passes(cfg, [a, b, c]) == [false, true, true]
    ensures Passes(cfg, [a, b, c] + [d]) == [false, true, true, false]
  {
    hide IsFlaky, IsPassed;
    assert !IsPassed(a.ts, cfg.required) && IsFlaky(a.ts) && IsPassed(b.ts, cfg.required) by { TwoKinds(cfg.required); }
    assert [a][..0] == [] && [a, b][..1] == [a] && [a, b, c][..2] == [a, b];
    assert Passes(cfg, [a]) == [] + [false];
    assert Passes(cfg, [a, b]) == [false] + [true];
    assert Passes(cfg, [a, b, c]) == [false, true] + [true];
    assert ([a, b, c] + [d])[..3] == [a, b, c];
    assert Passes(cfg, [a, b, c] + [d]) == [false, true, true] + [false];
  }

  lemma TwoKinds(required: real)
    requires required <= 1.0
    ensures !IsPassed(TestStat(1, 0, 1), required) && IsFlaky(TestStat(1, 0, 1))
    ensures IsPassed(TestStat(1, 0, 0), required)
  {
  }
}
