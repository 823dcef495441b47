/**
 The flaky-test retryer as a program and as a protocol (tools/flaky-test-retryer/github_commenter.go).

 `PostComment` reads its counters from the comment it posted last, decides, deletes that comment
 and posts a new one. The methods follow the source; the theorems at the end speak of every run
 of posts at one commit, with any jobs, any lists of failed tests, failing GitHub calls, dry runs
 and other people's comments in between.
 */
module Retryer {
  import opened Text
  import opened RetryText
  import opened RetryCommands

  /** What a run knows about the job it handles. */
  datatype JobData = JobData(name: string, sha: string, timestamp: string, url: string)

  datatype Comment = Comment(id: int, user: int, body: string)

  /** The GitHub call that fails, if any. */
  datatype Fault = NoFault | ListFails | DeleteFails | CreateFails

  datatype Lookup = NoComment | Found(comment: Comment) | TooMany

  // ----- What one post computes ----------------------------------------------------------

  datatype Action = GiveUp | Blocked | Retry

  function Decide(retries: int, outliers: seq<string>): Action
  {
    if retries >= MAX_RETRIES then GiveUp else if outliers != [] then Blocked else Retry
  }

  function Link(jd: JobData): string
  {
    "[" + jd.timestamp + "](" + jd.url + ")"
  }

  function CommandText(jd: JobData, retries: int, outliers: seq<string>): string
  {
    match Decide(retries, outliers)
    case GiveUp => OutOfRetriesText(jd.name)
    case Blocked => NoRetryText(jd.name, outliers)
    case Retry => RetryCommand(jd.name)
  }

  /** The table after the post: only the row of the job at hand changes. */
  function Updated(entries: map<string, Entry>, jd: JobData, outliers: seq<string>): (r: map<string, Entry>)
    requires jd.name in entries
    ensures r.Keys == entries.Keys
  {
    var e := entries[jd.name];
    match Decide(e.retries, outliers)
    case GiveUp => entries[jd.name := e.(links := WithLink(e.links, Link(jd)))]
    case Blocked => entries
    case Retry => entries[jd.name := e.(retries := e.retries + 1, links := WithLink(e.links, Link(jd)))]
  }

  predicate IsMine(c: Comment, me: int)
  {
    Recognised(c.body) && c.user == me
  }

  /** The retryer's own comments on the pull request, oldest first. */
  function Mine(comments: seq<Comment>, me: int): seq<Comment>
  {
    if comments == [] then []
    else
      var last := comments[|comments|-1];
      Mine(comments[..|comments|-1], me) + if IsMine(last, me) then [last] else []
  }

  function OldComment(comments: seq<Comment>, me: int): Lookup
  {
    var mine := Mine(comments, me);
    if mine == [] then NoComment else if |mine| == 1 then Found(mine[0]) else TooMany
  }

  /** The table the old comment carries, if it was written for the same commit. */
  function OldEntries(found: Lookup, sha: string): Option<map<string, Entry>>
  {
    if found.Found? && Marker(found.comment.body) == Some(sha)
    then ParseEntries(found.comment.body)
    else Some(map[])
  }

  function WithJob(entries: map<string, Entry>, job: string): map<string, Entry>
  {
    if job in entries then entries else entries[job := Entry(job, "", 0)]
  }

  function Remove(comments: seq<Comment>, id: int): seq<Comment>
  {
    if comments == [] then []
    else
      var last := comments[|comments|-1];
      Remove(comments[..|comments|-1], id) + if last.id != id then [last] else []
  }

  ghost function NewBody(entries: map<string, Entry>, jd: JobData, outliers: seq<string>): string
  {
    var before := WithJob(entries, jd.name);
    CommentText(jd.sha, Updated(before, jd, outliers), CommandText(jd, before[jd.name].retries, outliers))
  }

  /** What one call of `PostComment` leaves behind. */
  datatype Posted = Posted(comments: seq<Comment>, ok: bool)

  ghost function Post(comments: seq<Comment>, me: int, newId: int, jd: JobData, outliers: seq<string>,
                      fault: Fault, dryRun: bool): Posted
  {
    var found := OldComment(comments, me);
    if fault.ListFails? || found.TooMany? then Posted(comments, false)
    else
      match OldEntries(found, jd.sha)
      case None => Posted(comments, false)
      case Some(entries) =>
        if dryRun then Posted(comments, true)
        else if found.Found? && fault.DeleteFails? then Posted(comments, false)
        else
          var left := if found.Found? then Remove(comments, found.comment.id) else comments;
          if fault.CreateFails? then Posted(left, false)
          else
            Posted(left + [Comment(newId, me, NewBody(entries, jd, outliers))], true)
  }

  // ----- The program ---------------------------------------------------------------------

  class JobEntry {
    var name: string
    var links: string
    var retries: int

    function Value(): Entry
      reads this
    {
      Entry(name, links, retries)
    }

    constructor (e: Entry)
      ensures Value() == e
    {
      name, links, retries := e.name, e.links, e.retries;
    }

    method AddLink(newLink: string)
      modifies this
      ensures Value() == old(Value()).(links := WithLink(old(links), newLink))
    {
      var oldLinks: seq<string> := [];
      if links != "" {
        oldLinks := Split(links, "<br>");
      }
      if |oldLinks| >= MAX_RETRIES {
        links := Join(oldLinks[|oldLinks|-2..], "<br>");
      }
      links := Join(oldLinks + [newLink], "<br>");
    }
  }

  ghost function Objects(entries: map<string, JobEntry>): set<JobEntry>
  {
    set k | k in entries :: entries[k]
  }

  /** The table of entry objects stands for `m`, and no two rows share an object. */
  ghost predicate Shows(entries: map<string, JobEntry>, m: map<string, Entry>)
    reads Objects(entries)
  {
    && entries.Keys == m.Keys
    && (forall k :: k in entries ==> entries[k].Value() == m[k])
    && (forall k, l :: k in entries && l in entries && k != l ==> entries[k] != entries[l])
  }

  method ParseTable(body: string) returns (r: Option<map<string, JobEntry>>)
    ensures r.None? <==> ParseEntries(body).None?
    ensures r.Some? ==> Shows(r.value, ParseEntries(body).value)
    ensures r.Some? ==> forall k :: k in r.value ==> fresh(r.value[k])
  {
    var entries: map<string, JobEntry> := map[];
    var rows := FindAll(body);
    for i := 0 to |rows|
      invariant forall k :: k in entries ==> fresh(entries[k])
      invariant ParseRows(rows[..i]).Some? && Shows(entries, ParseRows(rows[..i]).value)
    {
      RowsStep(rows, i);
      var e := StringToEntry(rows[i]);
      if e.None? {
        RowsStop(rows, i + 1);
        return None;
      }
      var obj := new JobEntry(e.value);
      entries := entries[e.value.name := obj];
    }
    assert rows[..|rows|] == rows;
    r := Some(entries);
  }

  lemma RowsStep(rows: seq<string>, i: nat)
    requires i < |rows| && ParseRows(rows[..i]).Some?
    ensures ParseRows(rows[..i + 1]) ==
            match StringToEntry(rows[i])
            case None => None
            case Some(e) => Some(ParseRows(rows[..i]).value[e.name := e])
  {
    hide StringToEntry;
    assert rows[..i + 1][..i] == rows[..i];
  }

  lemma {:induction false} RowsStop(rows: seq<string>, i: nat)
    requires i <= |rows| && ParseRows(rows[..i]).None?
    ensures ParseRows(rows).None?
  {
    if i < |rows| {
      assert rows[..|rows|-1][..i] == rows[..i];
      RowsStop(rows[..|rows|-1], i);
    } else {
      assert rows[..i] == rows;
    }
  }

  method BuildRetryString(job: string, entries: map<string, JobEntry>) returns (cmd: string)
    requires job in entries
    modifies entries[job]
    ensures entries[job].Value() == old(entries[job].Value()).(retries := old(entries[job].retries) + 1)
    ensures cmd == if old(entries[job].retries) < MAX_RETRIES then RetryCommand(job) else ""
  {
    entries[job].retries := entries[job].retries + 1;
    cmd := if entries[job].retries <= MAX_RETRIES then RetryCommand(job) else "";
  }

  /** The keys of a map in any order, then sorted. */
  method SortKeys(entries: map<string, JobEntry>) returns (keys: seq<string>)
    ensures keys == SortedList(entries.Keys)
  {
    keys := [];
    var rest := entries.Keys;
    while rest != {}
      invariant Distinct(keys) && Elements(keys) + rest == entries.Keys && Elements(keys) !! rest
      decreases rest
    {
      var k :| k in rest;
      assert Elements(keys + [k]) == Elements(keys) + {k};
      keys, rest := keys + [k], rest - {k};
    }
    SortsTo(keys, entries.Keys);
    keys := Sort(keys);
  }

  function Linked(entries: map<string, Entry>, jd: JobData): map<string, Entry>
    requires jd.name in entries
  {
    entries[jd.name := entries[jd.name].(links := WithLink(entries[jd.name].links, Link(jd)))]
  }

  method PrintRow(jd: JobData, entries: map<string, JobEntry>, key: string, appendLog: bool,
                  ghost m: map<string, Entry>)
    returns (row: string)
    requires Shows(entries, m) && jd.name in m && key in m
    modifies entries[jd.name]
    ensures Shows(entries, if key == jd.name && appendLog then Linked(m, jd) else m)
    ensures row == EntryText((if key == jd.name && appendLog then Linked(m, jd) else m)[key])
  {
    hide EntryText, WithLink, Link;
    if key == jd.name && appendLog {
      entries[key].AddLink(Link(jd));
    }
    row := EntryText(entries[key].Value());
  }

  /** The rows in the order of the keys; the row of the job at hand gets its link on the way. */
  method PrintRows(jd: JobData, entries: map<string, JobEntry>, keys: seq<string>, appendLog: bool,
                   ghost m: map<string, Entry>)
    returns (rows: seq<string>)
    requires Shows(entries, m) && jd.name in m
    requires StrictlyAscending(keys) && Elements(keys) == m.Keys
    modifies entries[jd.name]
    ensures Shows(entries, if appendLog then Linked(m, jd) else m)
    ensures (forall k :: k in keys ==> k in m)
         && rows == EntryLines(if appendLog then Linked(m, jd) else m, keys)
  {
    hide EntryText, Shows;
    ghost var target := if appendLog then Linked(m, jd) else m;
    ghost var current := m;
    assert forall k :: k in keys <==> k in Elements(keys);
    rows := [];
    for i := 0 to |keys|
      invariant current == if jd.name in keys[..i] then target else m
      invariant Shows(entries, current)
      invariant |rows| == i && forall j :: 0 <= j < i ==> rows[j] == EntryText(target[keys[j]])
    {
      StrictDistinct(keys, i);
      assert keys[..i + 1] == keys[..i] + [keys[i]];
      var row := PrintRow(jd, entries, keys[i], appendLog, current);
      if keys[i] == jd.name { current := target; }
      rows := rows + [row];
    }
    assert keys[..|keys|] == keys;
  }

  method BuildNewComment(jd: JobData, entries: map<string, JobEntry>, outliers: seq<string>,
                         ghost m: map<string, Entry>)
    returns (body: string)
    requires Shows(entries, m) && jd.name in m
    modifies entries[jd.name]
    ensures Shows(entries, Updated(m, jd, outliers))
    ensures body == CommentText(jd.sha, Updated(m, jd, outliers), CommandText(jd, m[jd.name].retries, outliers))
  {
    hide Linked, CommentFrom, NoRetryText, OutOfRetriesText, RetryCommand, Updated, SortedList;
    var cmd;
    var appendLog := false;
    ghost var counted := m;
    if entries[jd.name].retries >= MAX_RETRIES {
      cmd := OutOfRetriesText(jd.name);
      appendLog := true;
    } else if |outliers| > 0 {
      cmd := NoRetryText(jd.name, outliers);
    } else {
      cmd := BuildRetryString(jd.name, entries);
      counted := m[jd.name := m[jd.name].(retries := m[jd.name].retries + 1)];
      appendLog := true;
    }
    assert Shows(entries, counted);
    var keys := SortKeys(entries);
    var rows := PrintRows(jd, entries, keys, appendLog, counted);
    body := CommentFrom(jd.sha, rows, cmd);
    UpdatedParts(m, counted, jd, outliers);
  }

  lemma UpdatedParts(m: map<string, Entry>, counted: map<string, Entry>, jd: JobData, outliers: seq<string>)
    requires jd.name in m
    requires counted == if Decide(m[jd.name].retries, outliers).Retry?
                        then m[jd.name := m[jd.name].(retries := m[jd.name].retries + 1)]
                        else m
    ensures Updated(m, jd, outliers)
         == if Decide(m[jd.name].retries, outliers).Blocked? then counted else Linked(counted, jd)
  {
  }

  lemma StrictDistinct(keys: seq<string>, i: nat)
    requires StrictlyAscending(keys) && i < |keys|
    ensures keys[i] !in keys[..i]
  {
    forall j | 0 <= j < i ensures keys[j] != keys[i] {
      LessAsymmetric(keys[j], keys[i]);
    }
  }

  /** A bot account and the conversation of one pull request. */
  class GithubClient {
    const id: int
    const dryRun: bool
    var comments: seq<Comment>

    constructor (id: int, dryRun: bool, comments: seq<Comment>)
      ensures this.id == id && this.dryRun == dryRun && this.comments == comments
    {
      this.id, this.dryRun, this.comments := id, dryRun, comments;
    }

    method GetOldComment() returns (found: Lookup)
      ensures found == OldComment(comments, id)
    {
      var own: Option<Comment> := None;
      for i := 0 to |comments|
        invariant Mine(comments[..i], id) == match own case None => [] case Some(c) => [c]
      {
        assert comments[..i + 1][..i] == comments[..i];
        if IsMine(comments[i], id) {
          if own.Some? {
            MinePrefix(comments, id, i + 1);
            return TooMany;
          }
          own := Some(comments[i]);
        }
      }
      assert comments[..|comments|] == comments;
      found := match own case None => NoComment case Some(c) => Found(c);
    }

    /** `newId` is the number GitHub gives the comment created; `fault` the call that fails. */
    method PostComment(jd: JobData, outliers: seq<string>, newId: int, fault: Fault)
      returns (ok: bool)
      modifies this`comments
      ensures var p := Post(old(comments), id, newId, jd, outliers, fault, dryRun);
              comments == p.comments && ok == p.ok
    {
      hide FindAll, ParseRows, Remove, CommentText, CommandText, Updated, Marker, Mine;
      if fault.ListFails? {
        return false;
      }
      var oldComment := GetOldComment();
      if oldComment.TooMany? {
        return false;
      }
      var oldEntries: map<string, JobEntry> := map[];
      if oldComment.Found? && Marker(oldComment.comment.body) == Some(jd.sha) {
        var parsed := ParseTable(oldComment.comment.body);
        if parsed.None? {
          return false;
        }
        oldEntries := parsed.value;
      }
      ghost var entries := OldEntries(oldComment, jd.sha).value;
      assert Shows(oldEntries, entries);
      if jd.name !in oldEntries {
        var added := new JobEntry(Entry(jd.name, "", 0));
        oldEntries := oldEntries[jd.name := added];
      }
      var newComment := BuildNewComment(jd, oldEntries, outliers, WithJob(entries, jd.name));
      if dryRun {
        return true;
      }
      if oldComment.Found? {
        if fault.DeleteFails? {
          return false;
        }
        comments := Remove(comments, oldComment.comment.id);
      }
      if fault.CreateFails? {
        return false;
      }
      comments := comments + [Comment(newId, id, newComment)];
      ok := true;
    }
  }

  lemma {:induction false} MinePrefix(comments: seq<Comment>, me: int, i: nat)
    requires i <= |comments|
    ensures |Mine(comments[..i], me)| <= |Mine(comments, me)|
  {
    if i < |comments| {
      assert comments[..|comments|-1][..i] == comments[..i];
      MinePrefix(comments[..|comments|-1], me, i);
    } else {
      assert comments[..i] == comments;
    }
  }

  // ----- Every run at one commit ---------------------------------------------------------

  /** What happens to the conversation: the retryer handles a job, or the comments change in any
      way that leaves the retryer's own comment alone. */
  datatype Event =
    | Run(jd: JobData, outliers: seq<string>, newId: int, fault: Fault, dryRun: bool)
    | Others(comments: seq<Comment>)

  ghost predicate Step(me: int, t: seq<Comment>, e: Event, u: seq<Comment>)
  {
    match e
    case Run(jd, outliers, newId, fault, dryRun) =>
      u == Post(t, me, newId, jd, outliers, fault, dryRun).comments
    case Others(comments) => u == comments && Mine(u, me) == Mine(t, me)
  }

  function LastBody(comments: seq<Comment>): string
  {
    if comments == [] then "" else comments[|comments|-1].body
  }

  /** The event posts a comment that commands `job`. */
  ghost predicate Sends(me: int, t: seq<Comment>, e: Event, job: string)
  {
    e.Run? && !e.dryRun &&
    var p := Post(t, me, e.newId, e.jd, e.outliers, e.fault, e.dryRun);
    p.ok && Commands(LastBody(p.comments), job)
  }

  /** Jobs and lists of failed tests as they come: no bar or newline in what is printed into the
      table, and no failed test that looks like a row or commands a job. */
  ghost predicate Plain(sha: string, e: Event)
  {
    e.Run? ==>
      && e.jd.sha == sha && ShaText(sha)
      && CellText(e.jd.name) && CellText(e.jd.timestamp) && CellText(e.jd.url)
      && (forall k :: 0 <= k < |Printed(e.outliers)| ==> NoCell(Printed(e.outliers)[k]))
      && (forall k, job :: 0 <= k < |Printed(e.outliers)| && CellText(job) ==> !Commands(Printed(e.outliers)[k], job))
  }

  ghost predicate Trace(me: int, ts: seq<seq<Comment>>, es: seq<Event>)
  {
    |ts| == |es| + 1 && forall i :: 0 <= i < |es| ==> Step(me, ts[i], es[i], ts[i + 1])
  }

  ghost function Sent(me: int, ts: seq<seq<Comment>>, es: seq<Event>, job: string): nat
    requires Trace(me, ts, es)
    decreases |es|
  {
    if es == [] then 0
    else (if Sends(me, ts[0], es[0], job) then 1 else 0) + Sent(me, ts[1..], es[1..], job)
  }

  /** The table the next run at `sha` will start from. */
  function Memory(t: seq<Comment>, me: int, sha: string): Option<map<string, Entry>>
  {
    OldEntries(OldComment(t, me), sha)
  }

  /** The counter the next run will read for `job`. */
  function Counter(t: seq<Comment>, me: int, sha: string, job: string): int
  {
    match Memory(t, me, sha)
    case None => 0
    case Some(m) => if job in m then m[job].retries else 0
  }

  ghost predicate GoodTable(m: map<string, Entry>)
  {
    KeyedByName(m) && forall k :: k in m ==> CleanEntry(m[k]) && 0 <= m[k].retries <= MAX_RETRIES
  }

  /** There is at most one comment of the retryer, and its table can be read. */
  ghost predicate Remembers(t: seq<Comment>, me: int, sha: string)
  {
    && !OldComment(t, me).TooMany?
    && Memory(t, me, sha).Some?
    && GoodTable(Memory(t, me, sha).value)
  }

  /** The retryer's comment, if there is one, was written for this commit. */
  ghost predicate AtCommit(t: seq<Comment>, me: int, sha: string)
  {
    match OldComment(t, me)
    case NoComment => true
    case Found(c) => Marker(c.body) == Some(sha)
    case TooMany => false
  }

  lemma LinkIsClean(links: string, jd: JobData)
    requires CellText(links) && CellText(jd.timestamp) && CellText(jd.url)
    ensures CellText(WithLink(links, Link(jd)))
  {
    hide WithLink;
    WithLinkAppends(links, Link(jd));
    assert '|' !in "<br>" && '\n' !in "<br>";
  }

  lemma UpdatedIsGood(m: map<string, Entry>, jd: JobData, outliers: seq<string>)
    requires GoodTable(m)
    requires CellText(jd.name) && CellText(jd.timestamp) && CellText(jd.url)
    ensures var before := WithJob(m, jd.name);
            GoodTable(before) && GoodTable(Updated(before, jd, outliers)) && Printable(Updated(before, jd, outliers))
  {
    hide WithLink, Link;
    var before := WithJob(m, jd.name);
    LinkIsClean(before[jd.name].links, jd);
    assert jd.name in Updated(before, jd, outliers);
  }

  lemma CommandHasNoCell(jd: JobData, retries: int, outliers: seq<string>)
    requires CellText(jd.name)
    requires forall k :: 0 <= k < |Printed(outliers)| ==> NoCell(Printed(outliers)[k])
    ensures NoCell(CommandText(jd, retries, outliers))
  {
    hide NoCell, NoRetryText, RetryCommand, OutOfRetriesText, CellText, Printed;
    FixedCommandsHaveNoCell(jd.name);
    NoRetryTextNoCellIff(jd.name, outliers);
  }

  lemma {:induction false} MineAfterRemove(comments: seq<Comment>, me: int, id: int)
    ensures Mine(Remove(comments, id), me) == Remove(Mine(comments, me), id)
  {
    if comments != [] {
      var before, last := comments[..|comments|-1], comments[|comments|-1];
      MineAfterRemove(before, me, id);
      if last.id != id {
        assert (Remove(before, id) + [last])[..|Remove(before, id)|] == Remove(before, id);
      } else {
        assert Remove(before, id) + [] == Remove(before, id);
      }
      if IsMine(last, me) {
        assert (Mine(before, me) + [last])[..|Mine(before, me)|] == Mine(before, me);
      } else {
        assert Mine(before, me) + [] == Mine(before, me);
      }
    }
  }

  lemma MineAfterDelete(t: seq<Comment>, me: int)
    requires !OldComment(t, me).TooMany?
    ensures var found := OldComment(t, me);
            Mine(if found.Found? then Remove(t, found.comment.id) else t, me) == []
  {
    var found := OldComment(t, me);
    if found.Found? {
      MineAfterRemove(t, me, found.comment.id);
      assert Mine(t, me)[..0] == [];
    }
  }

  lemma MineAfterCreate(left: seq<Comment>, me: int, c: Comment)
    requires Mine(left, me) == [] && IsMine(c, me)
    ensures Mine(left + [c], me) == [c]
  {
    assert (left + [c])[..|left|] == left;
  }

  /** What a post does to the table: the row of its job has its link appended and its counter raised by
      one, unless the counter is spent (the link alone) or tests stand against it (nothing); a job without
      a row gets one; every other row is as it was. */
  ghost predicate RowsChange(m: map<string, Entry>, after: map<string, Entry>, jd: JobData, outliers: seq<string>)
  {
    && after.Keys == m.Keys + {jd.name}
    && (forall k :: k in m && k != jd.name ==> after[k] == m[k])
    && var e := if jd.name in m then m[jd.name] else Entry(jd.name, "", 0);
       var link := "[" + jd.timestamp + "](" + jd.url + ")";
       var links := if e.links == "" then link else e.links + "<br>" + link;
       after[jd.name] == (if e.retries >= 3 then Entry(e.name, links, e.retries)
                          else if outliers != [] then e
                          else Entry(e.name, links, e.retries + 1))
  }

  lemma UpdatedChanges(m: map<string, Entry>, jd: JobData, outliers: seq<string>)
    ensures RowsChange(m, Updated(WithJob(m, jd.name), jd, outliers), jd, outliers)
  {
    hide WithLink;
    var before := WithJob(m, jd.name);
    WithLinkAppends(before[jd.name].links, Link(jd));
  }

  /** Which jobs the body of a post commands, whatever the failed tests are named: its own job if the
      counter read was below three and nothing stands against it, and what a failed test that is listed
      commands. */
  lemma BodyCommands(m: map<string, Entry>, jd: JobData, outliers: seq<string>, job: string)
    requires GoodTable(m) && ShaText(jd.sha) && CellText(job)
    requires CellText(jd.name) && CellText(jd.timestamp) && CellText(jd.url)
    ensures var retries := if jd.name in m then m[jd.name].retries else 0;
      Commands(NewBody(m, jd, outliers), job) <==>
        retries < 3 && (if outliers == [] then job == jd.name
                        else exists k :: 0 <= k < |Printed(outliers)| && Commands(Printed(outliers)[k], job))
  {
    hide Commands, CommentText, NoRetryText, RetryCommand, OutOfRetriesText, CellText, Printed, Updated, ShaText, Link;
    var before := WithJob(m, jd.name);
    UpdatedIsGood(m, jd, outliers);
    CommentCommands(jd.sha, Updated(before, jd, outliers), CommandText(jd, before[jd.name].retries, outliers), job);
    RetryCommandsJob(jd.name, job);
    OutOfRetriesCommandsNothing(jd.name, job);
    NoRetryCommands(jd.name, outliers, job);
  }

  /** A failed test with a line that commands a job makes the comment command it. */
  lemma OutlierCommands(m: map<string, Entry>, jd: JobData, job: string)
    requires GoodTable(m) && ShaText(jd.sha) && CellText(job)
    requires CellText(jd.name) && CellText(jd.timestamp) && CellText(jd.url)
    requires jd.name in m ==> m[jd.name].retries < 3
    ensures Commands(NewBody(m, jd, ["/test " + job]), job)
  {
    hide Commands, NewBody;
    var outliers := ["/test " + job];
    BodyCommands(m, jd, outliers, job);
    CommandsLine("/test " + job, job);
    assert Printed(outliers)[0] == "/test " + job;
  }

  /** A successful post leaves exactly one comment of the retryer, and the next run reads from it
      exactly the updated table. Its body commands the job at hand if the counter read was below three and
      no failed test stands against it, and else nothing. */
  lemma PostRemembers(t: seq<Comment>, me: int, newId: int, jd: JobData, outliers: seq<string>)
    requires Remembers(t, me, jd.sha)
    requires Plain(jd.sha, Run(jd, outliers, newId, NoFault, false))
    ensures var p := Post(t, me, newId, jd, outliers, NoFault, false);
            var before := WithJob(Memory(t, me, jd.sha).value, jd.name);
            && p.ok
            && |Mine(p.comments, me)| == 1
            && Memory(p.comments, me, jd.sha) == Some(Updated(before, jd, outliers))
            && Remembers(p.comments, me, jd.sha)
            && (forall job :: CellText(job) ==>
                  (Commands(LastBody(p.comments), job)
                   <==> job == jd.name && Counter(t, me, jd.sha, jd.name) < 3 && outliers == []))
            && RowsChange(Memory(t, me, jd.sha).value, Updated(before, jd, outliers), jd, outliers)
            && AtCommit(p.comments, me, jd.sha)
  {
    hide Mine, Remove, FindAll, ParseRows, CommentText, CommandText, Updated, Marker, NoCell, CellText;
    var m := Memory(t, me, jd.sha).value;
    var before := WithJob(m, jd.name);
    var after := Updated(before, jd, outliers);
    var cmd := CommandText(jd, before[jd.name].retries, outliers);
    UpdatedIsGood(m, jd, outliers);
    CommandHasNoCell(jd, before[jd.name].retries, outliers);
    CommentRoundTrip(jd.sha, after, cmd);
    MarkerRoundTrip(jd.sha, after, cmd);
    var found := OldComment(t, me);
    var left := if found.Found? then Remove(t, found.comment.id) else t;
    var c := Comment(newId, me, CommentText(jd.sha, after, cmd));
    MineAfterDelete(t, me);
    MineAfterCreate(left, me, c);
    UpdatedChanges(m, jd, outliers);
    PlainCommands(m, jd, outliers);
    assert Post(t, me, newId, jd, outliers, NoFault, false).comments == left + [c];
  }

  lemma PlainCommands(m: map<string, Entry>, jd: JobData, outliers: seq<string>)
    requires GoodTable(m) && Plain(jd.sha, Run(jd, outliers, 0, NoFault, false))
    ensures var retries := if jd.name in m then m[jd.name].retries else 0;
      forall job :: CellText(job) ==>
        (Commands(NewBody(m, jd, outliers), job) <==> job == jd.name && retries < 3 && outliers == [])
  {
    hide Commands, NewBody, CellText, ShaText, Printed, GoodTable;
    forall job | CellText(job)
      ensures Commands(NewBody(m, jd, outliers), job)
         <==> job == jd.name && (if jd.name in m then m[jd.name].retries else 0) < 3 && outliers == []
    {
      BodyCommands(m, jd, outliers, job);
    }
  }

  /** A creation that fails after the deletion loses every counter. */
  lemma LostComment(t: seq<Comment>, me: int, newId: int, jd: JobData, outliers: seq<string>)
    requires Remembers(t, me, jd.sha)
    ensures var p := Post(t, me, newId, jd, outliers, CreateFails, false);
            !p.ok && Mine(p.comments, me) == [] && Memory(p.comments, me, jd.sha) == Some(map[])
  {
    hide Mine, Remove;
    MineAfterDelete(t, me);
  }

  lemma OneStep(me: int, sha: string, t: seq<Comment>, e: Event, u: seq<Comment>, job: string)
    requires CellText(job)
    requires Remembers(t, me, sha) && Step(me, t, e, u) && Plain(sha, e)
    requires e.Run? ==> !e.fault.CreateFails?
    ensures Remembers(u, me, sha)
    ensures Counter(u, me, sha, job) == Counter(t, me, sha, job) + if Sends(me, t, e, job) then 1 else 0
  {
    hide Mine, Remove, FindAll, ParseRows, CommentText, CommandText, Marker, NoCell, CellText, WithLink, Link;
    if e.Run? && Post(t, me, e.newId, e.jd, e.outliers, e.fault, e.dryRun).ok && !e.dryRun {
      PostRemembers(t, me, e.newId, e.jd, e.outliers);
      assert Post(t, me, e.newId, e.jd, e.outliers, e.fault, e.dryRun)
          == Post(t, me, e.newId, e.jd, e.outliers, NoFault, false);
    }
  }

  lemma CounterBounds(t: seq<Comment>, me: int, sha: string, job: string)
    requires Remembers(t, me, sha)
    ensures 0 <= Counter(t, me, sha, job) <= MAX_RETRIES
  {
  }

  /** The run deletes the old comment and fails to post its own. */
  ghost predicate Loses(me: int, t: seq<Comment>, e: Event)
  {
    e.Run? && e.fault.CreateFails? && !e.dryRun && OldComment(t, me).Found?
  }

  ghost function Losses(me: int, ts: seq<seq<Comment>>, es: seq<Event>): nat
    requires Trace(me, ts, es)
    decreases |es|
  {
    if es == [] then 0 else (if Loses(me, ts[0], es[0]) then 1 else 0) + Losses(me, ts[1..], es[1..])
  }

  /** What the comments lost had counted for `job`. */
  ghost function Wiped(me: int, ts: seq<seq<Comment>>, es: seq<Event>, sha: string, job: string): int
    requires Trace(me, ts, es)
    decreases |es|
  {
    if es == [] then 0
    else
      (if Loses(me, ts[0], es[0]) then Counter(ts[0], me, sha, job) else 0)
      + Wiped(me, ts[1..], es[1..], sha, job)
  }

  lemma FailedCreation(me: int, sha: string, t: seq<Comment>, e: Event, u: seq<Comment>, job: string)
    requires Remembers(t, me, sha) && Step(me, t, e, u) && Plain(sha, e)
    requires e.Run? && e.fault.CreateFails?
    ensures Remembers(u, me, sha) && !Sends(me, t, e, job)
    ensures if Loses(me, t, e) then Counter(u, me, sha, job) == 0 else u == t
  {
    hide Mine, Remove, FindAll, ParseRows, CommentText, CommandText, Marker, NoCell, CellText;
    if Loses(me, t, e) { LostComment(t, me, e.newId, e.jd, e.outliers); }
  }

  /** Over every run at one commit, whatever calls fail: the commands sent to a job are exactly what its
      counter grew by and what the comments lost had counted. */
  lemma {:induction false} CounterLaw(me: int, sha: string, ts: seq<seq<Comment>>, es: seq<Event>, job: string)
    requires CellText(job)
    requires Trace(me, ts, es) && Remembers(ts[0], me, sha)
    requires forall i :: 0 <= i < |es| ==> Plain(sha, es[i])
    ensures Remembers(ts[|es|], me, sha)
    ensures Counter(ts[0], me, sha, job) + Sent(me, ts, es, job)
         == Counter(ts[|es|], me, sha, job) + Wiped(me, ts, es, sha, job)
    ensures 0 <= Wiped(me, ts, es, sha, job) <= MAX_RETRIES * Losses(me, ts, es)
    decreases |es|
  {
    hide Remembers, Counter, Plain, Step, Sends, Loses;
    if es != [] {
      CounterBounds(ts[0], me, sha, job);
      if es[0].Run? && es[0].fault.CreateFails? {
        FailedCreation(me, sha, ts[0], es[0], ts[1], job);
      } else {
        OneStep(me, sha, ts[0], es[0], ts[1], job);
        LosesByCreation(me, ts[0], es[0]);
      }
      CounterLaw(me, sha, ts[1..], es[1..], job);
    }
  }

  lemma LosesByCreation(me: int, t: seq<Comment>, e: Event)
    ensures Loses(me, t, e) ==> e.Run? && e.fault.CreateFails?
  {
  }

  /** The promise of the tool, exactly: at a new commit a job is sent at most three commands if and only
      if no more was wiped than its counter has left. */
  lemma AtMostThreeIff(me: int, sha: string, ts: seq<seq<Comment>>, es: seq<Event>, job: string)
    requires CellText(job)
    requires Trace(me, ts, es) && Remembers(ts[0], me, sha) && Counter(ts[0], me, sha, job) == 0
    requires forall i :: 0 <= i < |es| ==> Plain(sha, es[i])
    ensures Sent(me, ts, es, job) <= MAX_RETRIES
       <==> Wiped(me, ts, es, sha, job) <= MAX_RETRIES - Counter(ts[|es|], me, sha, job)
  {
    hide Remembers, Counter, Plain, Sent, Losses, Wiped, Step;
    CounterLaw(me, sha, ts, es, job);
  }

  lemma {:induction false} NothingLost(me: int, ts: seq<seq<Comment>>, es: seq<Event>)
    requires Trace(me, ts, es)
    requires forall i :: 0 <= i < |es| && es[i].Run? ==> !es[i].fault.CreateFails?
    ensures Losses(me, ts, es) == 0
    decreases |es|
  {
    hide Step, Loses;
    if es != [] {
      LosesByCreation(me, ts[0], es[0]);
      NothingLost(me, ts[1..], es[1..]);
    }
  }

  /** Over any run at one commit in which no creation fails, each job is sent exactly as many commands as
      its counter grew, hence at most three in all. */
  lemma AtMostThreeRetries(me: int, sha: string, ts: seq<seq<Comment>>, es: seq<Event>, job: string)
    requires CellText(job)
    requires Trace(me, ts, es) && Remembers(ts[0], me, sha)
    requires forall i :: 0 <= i < |es| ==> Plain(sha, es[i])
    requires forall i :: 0 <= i < |es| && es[i].Run? ==> !es[i].fault.CreateFails?
    ensures Remembers(ts[|es|], me, sha)
    ensures Counter(ts[0], me, sha, job) + Sent(me, ts, es, job) == Counter(ts[|es|], me, sha, job)
    ensures Sent(me, ts, es, job) <= MAX_RETRIES
  {
    hide Remembers, Counter, Plain, Sent, Losses, Wiped, Step;
    CounterLaw(me, sha, ts, es, job);
    NothingLost(me, ts, es);
    CounterBounds(ts[0], me, sha, job);
    CounterBounds(ts[|es|], me, sha, job);
  }

  /** Failing calls included: each comment lost on the way costs at most three more commands. */
  lemma ThreeRetriesPerLoss(me: int, sha: string, ts: seq<seq<Comment>>, es: seq<Event>, job: string)
    requires CellText(job)
    requires Trace(me, ts, es) && Remembers(ts[0], me, sha)
    requires forall i :: 0 <= i < |es| ==> Plain(sha, es[i])
    ensures Remembers(ts[|es|], me, sha)
    ensures Counter(ts[0], me, sha, job) + Sent(me, ts, es, job)
         <= Counter(ts[|es|], me, sha, job) + MAX_RETRIES * Losses(me, ts, es)
    ensures Sent(me, ts, es, job) <= MAX_RETRIES * (Losses(me, ts, es) + 1)
  {
    hide Remembers, Counter, Plain, Sent, Losses, Wiped, Step;
    CounterLaw(me, sha, ts, es, job);
    CounterBounds(ts[0], me, sha, job);
    CounterBounds(ts[|es|], me, sha, job);
  }

  // ----- Both bounds are reached ---------------------------------------------------------

  lemma {:induction false} AppendEvent(me: int, ts: seq<seq<Comment>>, es: seq<Event>, e: Event, u: seq<Comment>,
                                       job: string)
    requires Trace(me, ts, es) && Step(me, ts[|es|], e, u)
    ensures Trace(me, ts + [u], es + [e])
    ensures Sent(me, ts + [u], es + [e], job) == Sent(me, ts, es, job) + if Sends(me, ts[|es|], e, job) then 1 else 0
    ensures Losses(me, ts + [u], es + [e]) == Losses(me, ts, es) + if Loses(me, ts[|es|], e) then 1 else 0
    decreases |es|
  {
    hide Step, Sends, Loses;
    if es == [] {
      assert (es + [e])[1..] == [] && (ts + [u])[1..] == [u];
    } else {
      assert (es + [e])[1..] == es[1..] + [e] && (ts + [u])[1..] == ts[1..] + [u];
      AppendEvent(me, ts[1..], es[1..], e, u, job);
    }
  }

  /** A job whose runs and links can be printed, at a commit. */
  ghost predicate PlainJob(jd: JobData)
  {
    Plain(jd.sha, Run(jd, [], 0, NoFault, false))
  }

  lemma PlainAlways(jd: JobData, newId: int, fault: Fault)
    requires PlainJob(jd)
    ensures Plain(jd.sha, Run(jd, [], newId, fault, false))
  {
  }

  lemma PostCounts(t: seq<Comment>, me: int, newId: int, jd: JobData) returns (u: seq<Comment>)
    requires Remembers(t, me, jd.sha) && PlainJob(jd) && Counter(t, me, jd.sha, jd.name) < MAX_RETRIES
    ensures var e := Run(jd, [], newId, NoFault, false);
      Step(me, t, e, u) && Sends(me, t, e, jd.name) && !Loses(me, t, e) && Remembers(u, me, jd.sha)
      && Counter(u, me, jd.sha, jd.name) == Counter(t, me, jd.sha, jd.name) + 1
  {
    hide Post, Remembers, Counter, Plain;
    var e := Run(jd, [], newId, NoFault, false);
    PlainAlways(jd, newId, NoFault);
    PostRemembers(t, me, newId, jd, []);
    u := Post(t, me, newId, jd, [], NoFault, false).comments;
    OneStep(me, jd.sha, t, e, u, jd.name);
  }

  /** A run goes on with `n` posts for a job that has not been counted. */
  lemma {:induction false} MorePosts(me: int, jd: JobData, ts: seq<seq<Comment>>, es: seq<Event>, n: nat)
    returns (us: seq<seq<Comment>>, fs: seq<Event>)
    requires Trace(me, ts, es) && PlainJob(jd) && n <= MAX_RETRIES
    requires forall i :: 0 <= i < |es| ==> Plain(jd.sha, es[i])
    requires Remembers(ts[|es|], me, jd.sha) && Counter(ts[|es|], me, jd.sha, jd.name) == 0
    ensures Trace(me, us, fs) && us[0] == ts[0] && forall i :: 0 <= i < |fs| ==> Plain(jd.sha, fs[i])
    ensures Sent(me, us, fs, jd.name) == Sent(me, ts, es, jd.name) + n && Losses(me, us, fs) == Losses(me, ts, es)
    ensures Remembers(us[|fs|], me, jd.sha) && Counter(us[|fs|], me, jd.sha, jd.name) == n
  {
    hide Remembers, Post, Sends, Loses, Counter, Plain, Step;
    us, fs := ts, es;
    if n > 0 {
      us, fs := MorePosts(me, jd, ts, es, n - 1);
      var e := Run(jd, [], |fs|, NoFault, false);
      var u := PostCounts(us[|fs|], me, |fs|, jd);
      PlainAlways(jd, |fs|, NoFault);
      AppendEvent(me, us, fs, e, u, jd.name);
      us, fs := us + [u], fs + [e];
    }
  }

  lemma LoseComment(t: seq<Comment>, me: int, newId: int, jd: JobData) returns (u: seq<Comment>)
    requires Remembers(t, me, jd.sha) && PlainJob(jd) && Counter(t, me, jd.sha, jd.name) > 0
    ensures var e := Run(jd, [], newId, CreateFails, false);
      Step(me, t, e, u) && !Sends(me, t, e, jd.name) && Loses(me, t, e) && Remembers(u, me, jd.sha)
      && Counter(u, me, jd.sha, jd.name) == 0
  {
    hide Mine, Remove, FindAll, ParseRows, CommentText, CommandText, Marker, Plain;
    var e := Run(jd, [], newId, CreateFails, false);
    PlainAlways(jd, newId, CreateFails);
    u := Post(t, me, newId, jd, [], CreateFails, false).comments;
    FailedCreation(me, jd.sha, t, e, u, jd.name);
  }

  lemma EmptyConversation(me: int, sha: string, job: string)
    ensures Remembers([], me, sha) && Counter([], me, sha, job) == 0
  {
  }

  /** From an empty conversation: `k` comments are lost, each with a full counter, and `r` commands are
      sent after the last of them. */
  lemma {:induction false} LossyRun(me: int, jd: JobData, k: nat, r: nat)
    returns (ts: seq<seq<Comment>>, es: seq<Event>)
    requires PlainJob(jd) && r <= MAX_RETRIES
    ensures Trace(me, ts, es) && ts[0] == [] && forall i :: 0 <= i < |es| ==> Plain(jd.sha, es[i])
    ensures Losses(me, ts, es) == k && Sent(me, ts, es, jd.name) == MAX_RETRIES * k + r
    ensures Remembers(ts[|es|], me, jd.sha) && Counter(ts[|es|], me, jd.sha, jd.name) == r
  {
    hide Remembers, Post, Sends, Loses, Counter, Plain, Step;
    if k == 0 {
      ts, es := [[]], [];
      EmptyConversation(me, jd.sha, jd.name);
    } else {
      ts, es := LossyRun(me, jd, k - 1, MAX_RETRIES);
      var u := LoseComment(ts[|es|], me, |es|, jd);
      PlainAlways(jd, |es|, CreateFails);
      AppendEvent(me, ts, es, Run(jd, [], |es|, CreateFails, false), u, jd.name);
      ts, es := ts + [u], es + [Run(jd, [], |es|, CreateFails, false)];
    }
    ts, es := MorePosts(me, jd, ts, es, r);
  }

  /** The bound of three commands for each comment lost, and three more, is reached for every number of
      losses. */
  lemma LossBoundReached(me: int, jd: JobData, k: nat)
    requires PlainJob(jd)
    ensures exists ts, es :: (
              && Trace(me, ts, es) && Remembers(ts[0], me, jd.sha)
              && (forall i :: 0 <= i < |es| ==> Plain(jd.sha, es[i]))
              && Losses(me, ts, es) == k && Sent(me, ts, es, jd.name) == MAX_RETRIES * (k + 1))
  {
    hide Remembers, Sent, Losses, Plain, Step, Counter;
    var ts, es := LossyRun(me, jd, k, MAX_RETRIES);
    EmptyConversation(me, jd.sha, jd.name);
  }

  /** One comment lost is enough for a fourth command. */
  lemma LostCommentExceedsRetries(me: int, jd: JobData)
    requires PlainJob(jd)
    ensures exists ts, es :: (
              && Trace(me, ts, es) && Remembers(ts[0], me, jd.sha)
              && (forall i :: 0 <= i < |es| ==> Plain(jd.sha, es[i]))
              && Losses(me, ts, es) == 1 && Sent(me, ts, es, jd.name) == MAX_RETRIES + 1)
  {
    hide Remembers, Sent, Losses, Plain, Step, Counter;
    var ts, es := LossyRun(me, jd, 1, 1);
    EmptyConversation(me, jd.sha, jd.name);
  }

  // ----- Comments of others --------------------------------------------------------------

  /** A comment is the retryer's own if it wrote it and it has one of its two marks; what others write,
      marked or not, is none of its business. */
  lemma {:induction false} MineIff(t: seq<Comment>, me: int, c: Comment)
    ensures c in Mine(t, me) <==>
            c in t && c.user == me && (Contains(c.body, "<!--AUTOMATED-FLAKY-RETRYER-->") || Marker(c.body).Some?)
  {
    hide Marker, Contains;
    if t != [] {
      var before, last := t[..|t|-1], t[|t|-1];
      assert t == before + [last];
      MineIff(before, me, c);
    }
  }

  lemma {:induction false} RemoveIff(t: seq<Comment>, id: int, c: Comment)
    ensures c in Remove(t, id) <==> c in t && c.id != id
  {
    if t != [] {
      assert t == t[..|t|-1] + [t[|t|-1]];
      RemoveIff(t[..|t|-1], id, c);
    }
  }

  /** A post leaves every comment of others where it is, and a comment by somebody else does not change
      what is posted, even if it imitates the retryer's. */
  lemma OthersAreLeftAlone(t: seq<Comment>, me: int, newId: int, jd: JobData, outliers: seq<string>, fault: Fault,
                           dryRun: bool, c: Comment)
    requires c in t && c.user != me && forall i, j :: 0 <= i < j < |t| ==> t[i].id != t[j].id
    ensures c in Post(t, me, newId, jd, outliers, fault, dryRun).comments
  {
    hide Mine, Remove, NewBody, OldEntries;
    var found := OldComment(t, me);
    if found.Found? {
      var o := found.comment;
      assert o in Mine(t, me);
      MineIff(t, me, o);
      var i :| 0 <= i < |t| && t[i] == o;
      var j :| 0 <= j < |t| && t[j] == c;
      assert i != j;
      RemoveIff(t, o.id, c);
    }
  }

  lemma ForgedCommentIgnored(t: seq<Comment>, me: int, newId: int, jd: JobData, outliers: seq<string>, c: Comment)
    requires c.user != me
    ensures var p := Post(t, me, newId, jd, outliers, NoFault, false);
      var q := Post(t + [c], me, newId, jd, outliers, NoFault, false);
      p.ok == q.ok && (p.ok ==> LastBody(p.comments) == LastBody(q.comments))
  {
    hide Marker, FindAll, ParseRows, Remove, NewBody;
    assert (t + [c])[..|t|] == t;
    assert Mine(t + [c], me) == Mine(t, me) + [];
    assert Mine(t, me) + [] == Mine(t, me);
  }

  // ----- A new commit --------------------------------------------------------------------

  ghost predicate Posts(me: int, t: seq<Comment>, e: Event)
  {
    e.Run? && !e.dryRun && Post(t, me, e.newId, e.jd, e.outliers, e.fault, e.dryRun).ok
  }

  lemma CommitStep(me: int, sha: string, t: seq<Comment>, e: Event, u: seq<Comment>)
    requires Remembers(t, me, sha) && Step(me, t, e, u) && Plain(sha, e)
    ensures Remembers(u, me, sha)
    ensures AtCommit(t, me, sha) || Posts(me, t, e) ==> AtCommit(u, me, sha)
  {
    hide Mine, Remove, FindAll, ParseRows, CommentText, CommandText, Marker, NoCell, CellText, WithLink, Link;
    if Posts(me, t, e) {
      PostRemembers(t, me, e.newId, e.jd, e.outliers);
      assert Post(t, me, e.newId, e.jd, e.outliers, e.fault, e.dryRun)
          == Post(t, me, e.newId, e.jd, e.outliers, NoFault, false);
    } else if Loses(me, t, e) {
      LostComment(t, me, e.newId, e.jd, e.outliers);
    }
  }

  lemma {:induction false} CommitStays(me: int, sha: string, ts: seq<seq<Comment>>, es: seq<Event>)
    requires Trace(me, ts, es) && Remembers(ts[0], me, sha)
    requires forall i :: 0 <= i < |es| ==> Plain(sha, es[i])
    requires AtCommit(ts[0], me, sha) || exists i :: 0 <= i < |es| && Posts(me, ts[i], es[i])
    ensures AtCommit(ts[|es|], me, sha)
    decreases |es|
  {
    hide Remembers, Plain, Step, AtCommit, Posts;
    if es != [] {
      CommitStep(me, sha, ts[0], es[0], ts[1]);
      if !AtCommit(ts[1], me, sha) {
        var i :| 0 <= i < |es| && Posts(me, ts[i], es[i]);
        assert Posts(me, ts[1..][i - 1], es[1..][i - 1]);
      }
      CommitStays(me, sha, ts[1..], es[1..]);
    }
  }

  /** After any run at one commit that posted something, every counter at another commit is zero: the
      marker of the comment is read back, and it is not that of the other commit. */
  lemma FreshCommit(me: int, sha: string, ts: seq<seq<Comment>>, es: seq<Event>, other: string)
    requires Trace(me, ts, es) && Remembers(ts[0], me, sha) && other != sha
    requires forall i :: 0 <= i < |es| ==> Plain(sha, es[i])
    requires exists i :: 0 <= i < |es| && Posts(me, ts[i], es[i])
    ensures Remembers(ts[|es|], me, other)
    ensures forall job :: Counter(ts[|es|], me, other, job) == 0
  {
    CommitStays(me, sha, ts, es);
    NewCommit(ts[|es|], me, sha, other);
  }

  lemma NewCommit(t: seq<Comment>, me: int, sha: string, other: string)
    requires AtCommit(t, me, sha) && other != sha
    ensures Remembers(t, me, other) && forall job :: Counter(t, me, other, job) == 0
  {
  }
}
