/**
 What a comment of the retryer commands (tools/flaky-test-retryer/github_commenter.go): Prow acts on
 every line `/test job`, wherever in the comment it stands.
 */
module RetryCommands {
  import opened Text
  import opened RetryText

  /** The comment has the line that starts `job`. */
  predicate Commands(body: string, job: string)
  {
    "/test " + job in Split(body, "\n")
  }

  lemma CommandsLines(a: string, b: string, job: string)
    ensures Commands(a + "\n" + b, job) <==> Commands(a, job) || Commands(b, job)
  {
    hide Split;
    SplitAppend(a, '\n', b);
  }

  lemma CommandsLine(line: string, job: string)
    requires Free(line, '\n')
    ensures Commands(line, job) <==> line == "/test " + job
  {
    hide Split;
    SplitFree(line, '\n');
  }

  lemma FreeCommandsNothing(s: string, job: string)
    requires Free(s, '/')
    ensures !Commands(s, job)
  {
    hide Split;
    SplitKeepsFree(s, "\n", '/');
    assert ("/test " + job)[0] == '/';
  }

  lemma {:induction false} JoinedCommands(parts: seq<string>, job: string)
    ensures Commands(Join(parts, "\n"), job) <==> exists k :: 0 <= k < |parts| && Commands(parts[k], job)
  {
    hide Commands;
    if parts == [] {
      FreeCommandsNothing("", job);
    } else if |parts| == 1 {
      JoinSingle(parts[0], "\n");
      assert parts == [parts[0]];
    } else {
      CommandsLines(parts[0], Join(parts[1..], "\n"), job);
      JoinedCommands(parts[1..], job);
      if k :| 0 <= k < |parts[1..]| && Commands(parts[1..][k], job) { assert Commands(parts[k + 1], job); }
      if k :| 0 <= k < |parts| && Commands(parts[k], job) {
        assert k > 0 ==> Commands(parts[1..][k - 1], job);
      }
    }
  }

  /** A row of the table is one line, and it holds a bar. */
  lemma RowCommandsNothing(e: Entry, job: string)
    requires CleanEntry(e) && CellText(job)
    ensures !Commands(EntryText(e), job)
  {
    hide Commands;
    ItoaShape(e.retries);
    CommandsLine(EntryText(e), job);
    assert EntryText(e)[|e.name| + 1] == '|';
    assert Free("/test " + job, '|');
  }

  lemma HeadCommandsNothing(sha: string, job: string)
    requires ShaText(sha)
    ensures !Commands("<!--" + MARK + sha + MARK + HEADER, job)
  {
    HeadHasNoSlash(sha);
    FreeCommandsNothing("<!--" + MARK + sha + MARK + HEADER, job);
  }

  /** The comment commands what its last part commands. */
  lemma CommentCommands(sha: string, entries: map<string, Entry>, cmd: string, job: string)
    requires ShaText(sha) && CellText(job) && forall k :: k in entries ==> CleanEntry(entries[k])
    ensures Commands(CommentText(sha, entries, cmd), job) <==> Commands(cmd, job)
  {
    hide Commands, EntryText, CleanEntry, CellText, ShaText, CommentText, Join;
    var keys := SortedList(entries.Keys);
    assert forall k :: k in keys ==> k in Elements(keys);
    var rows := EntryLines(entries, keys);
    CommentParts(sha, entries, cmd);
    CommandsLines("<!--" + MARK + sha + MARK + HEADER, Join(rows, "\n") + "\n" + ("" + "\n" + cmd), job);
    HeadCommandsNothing(sha, job);
    CommandsLines(Join(rows, "\n"), "" + "\n" + cmd, job);
    JoinedCommands(rows, job);
    forall k | 0 <= k < |rows| ensures !Commands(rows[k], job) {
      RowCommandsNothing(entries[keys[k]], job);
    }
    CommandsLines("", cmd, job);
    FreeCommandsNothing("", job);
  }

  lemma RetryCommandsJob(name: string, job: string)
    requires CellText(name)
    ensures Commands(RetryCommand(name), job) <==> job == name
  {
    hide Commands;
    var first := "Automatically retrying " + "due to test flakiness...";
    assert RetryCommand(name) == first + "\n" + ("/test " + name);
    CommandsLines(first, "/test " + name, job);
    assert '/' !in "Automatically retrying " && '/' !in "due to test flakiness...";
    FreeCommandsNothing(first, job);
    CommandsLine("/test " + name, job);
    assert ("/test " + name)[6..] == name && ("/test " + job)[6..] == job;
  }

  lemma OutOfRetriesCommandsNothing(name: string, job: string)
    requires CellText(name)
    ensures !Commands(OutOfRetriesText(name), job)
  {
    hide Commands;
    assert '\n' !in "Job " && '\n' !in " expended all 3 " && '\n' !in "retries without success.";
    CommandsLine(OutOfRetriesText(name), job);
    assert OutOfRetriesText(name)[0] == 'J' && ("/test " + job)[0] == '/';
  }

  lemma NoRetryHeadCommandsNothing(name: string, job: string)
    requires CellText(name)
    ensures !Commands(NoRetryHead(name), job)
  {
    hide Commands;
    var first := "Failed non-flaky tests " + "preventing automatic " + "retry of " + name + ":";
    assert NoRetryHead(name) == first + "\n" + ("" + "\n" + "```");
    CommandsLines(first, "" + "\n" + "```", job);
    assert '\n' !in "Failed non-flaky tests " && '\n' !in "preventing automatic " && '\n' !in "retry of ";
    assert Free(first, '\n');
    CommandsLine(first, job);
    assert first[0] == 'F' && ("/test " + job)[0] == '/';
    FreeCommandsNothing("" + "\n" + "```", job);
  }

  lemma NoRetryTailCommandsNothing(count: nat, job: string)
    ensures !Commands(NoRetryTail(count), job)
  {
    hide Commands;
    if count > MAX_FAILED_TESTS_TO_PRINT { DecimalFree(count - MAX_FAILED_TESTS_TO_PRINT, '/'); }
    assert '/' !in "```" && '/' !in "\n\nand " && '/' !in " more.";
    FreeCommandsNothing(NoRetryTail(count), job);
  }

  /** The list of failed tests commands exactly what a test printed commands. */
  lemma NoRetryCommands(name: string, outliers: seq<string>, job: string)
    requires CellText(name)
    ensures Commands(NoRetryText(name, outliers), job) <==>
            exists k :: 0 <= k < |Printed(outliers)| && Commands(Printed(outliers)[k], job)
  {
    hide Commands, NoRetryText, NoRetryHead, NoRetryTail, CellText;
    var listed := Join(Printed(outliers), "\n");
    var tail := NoRetryTail(|outliers|);
    NoRetryParts(name, outliers);
    CommandsLines(NoRetryHead(name), listed + "\n" + tail, job);
    CommandsLines(listed, tail, job);
    NoRetryHeadCommandsNothing(name, job);
    NoRetryTailCommandsNothing(|outliers|, job);
    JoinedCommands(Printed(outliers), job);
  }
}
