/**
 The retryer with several handlers at work (tools/flaky-test-retryer/handler.go,
 tools/flaky-test-retryer/github_commenter.go).

 Every message about a failed job is handled in a goroutine of its own, so the three calls of one
 `PostComment`, listing the comments, deleting the old one and creating the new one, interleave with
 those of others. A state holds the conversation and, for each handler between its list and the end
 of its post, what it will do next. Posts one at a time refine the serialized runs of the module
 Retryer and keep its promises; two at a time break them without a single failing call.
 */
module RetryRace {
  import opened Text
  import opened RetryText
  import opened RetryCommands
  import opened Retryer

  /** What a handler has in hand after its list: the table it read, and the comment to delete. */
  datatype Stage =
    | ToDelete(current: Comment, jd: JobData, outliers: seq<string>, entries: map<string, Entry>)
    | ToCreate(jd: JobData, outliers: seq<string>, entries: map<string, Entry>)

  datatype State = State(comments: seq<Comment>, flying: map<nat, Stage>)

  /** One call of one handler, or other people at the conversation. `ok` tells whether the call succeeds,
      `newId` is the number GitHub gives a comment. */
  datatype Call =
    | List(handler: nat, jd: JobData, outliers: seq<string>, ok: bool, dryRun: bool)
    | Delete(handler: nat, ok: bool)
    | Create(handler: nat, newId: int, ok: bool)
    | Meanwhile(comments: seq<Comment>)

  predicate Enabled(me: int, s: State, c: Call)
  {
    match c
    case List(h, _, _, _, _) => h !in s.flying
    case Delete(h, _) => h in s.flying && s.flying[h].ToDelete?
    case Create(h, _, _) => h in s.flying && s.flying[h].ToCreate?
    case Meanwhile(comments) => Mine(comments, me) == Mine(s.comments, me)
  }

  predicate Present(comments: seq<Comment>, id: int)
  {
    exists i :: 0 <= i < |comments| && comments[i].id == id
  }

  ghost function Listed(me: int, s: State, h: nat, jd: JobData, outliers: seq<string>): State
  {
    var found := OldComment(s.comments, me);
    if found.TooMany? then s
    else
      match OldEntries(found, jd.sha)
      case None => s
      case Some(entries) =>
        s.(flying := s.flying[h :=
             if found.Found? then ToDelete(found.comment, jd, outliers, entries) else ToCreate(jd, outliers, entries)])
  }

  /** A comment that is gone cannot be deleted again. */
  ghost function Next(me: int, s: State, c: Call): State
    requires Enabled(me, s, c)
  {
    match c
    case List(h, jd, outliers, ok, dryRun) => if ok && !dryRun then Listed(me, s, h, jd, outliers) else s
    case Delete(h, ok) =>
      var f := s.flying[h];
      if ok && Present(s.comments, f.current.id)
      then State(Remove(s.comments, f.current.id), s.flying[h := ToCreate(f.jd, f.outliers, f.entries)])
      else s.(flying := s.flying - {h})
    case Create(h, newId, ok) =>
      var f := s.flying[h];
      var left := s.flying - {h};
      if ok then State(s.comments + [Comment(newId, me, NewBody(f.entries, f.jd, f.outliers))], left)
      else s.(flying := left)
    case Meanwhile(comments) => s.(comments := comments)
  }

  /** A run in which at most `limit` posts are in flight at any time. */
  ghost predicate Runs(me: int, limit: nat, s: State, cs: seq<Call>)
    decreases |cs|
  {
    cs == [] || (&& Enabled(me, s, cs[0]) && |Next(me, s, cs[0]).flying| <= limit
                 && Runs(me, limit, Next(me, s, cs[0]), cs[1..]))
  }

  ghost function Exec(me: int, limit: nat, s: State, cs: seq<Call>): State
    requires Runs(me, limit, s, cs)
    decreases |cs|
  {
    if cs == [] then s else Exec(me, limit, Next(me, s, cs[0]), cs[1..])
  }

  /** The call posts a comment that commands `job`. */
  ghost predicate Starts(s: State, c: Call, job: string)
  {
    && c.Create? && c.ok && c.handler in s.flying && s.flying[c.handler].ToCreate?
    && var f := s.flying[c.handler];
       Commands(NewBody(f.entries, f.jd, f.outliers), job)
  }

  ghost function CommandsSent(me: int, limit: nat, s: State, cs: seq<Call>, job: string): nat
    requires Runs(me, limit, s, cs)
    decreases |cs|
  {
    if cs == [] then 0
    else
      (if Starts(s, cs[0], job) then 1 else 0) + CommandsSent(me, limit, Next(me, s, cs[0]), cs[1..], job)
  }

  /** What the call is about can be printed. */
  ghost predicate PlainCall(sha: string, c: Call)
  {
    c.List? ==> Plain(sha, Run(c.jd, c.outliers, 0, NoFault, false))
  }

  /** Printable calls at one commit of which no creation fails; lists and deletions may. */
  ghost predicate Clean(sha: string, cs: seq<Call>)
  {
    forall i :: 0 <= i < |cs| ==> PlainCall(sha, cs[i]) && (cs[i].Create? ==> cs[i].ok)
  }

  // ----- A handler left alone ------------------------------------------------------------

  lemma {:induction false} MinePresent(comments: seq<Comment>, me: int, c: Comment)
    requires c in Mine(comments, me)
    ensures Present(comments, c.id)
  {
    var last := comments[|comments|-1];
    if c == last {
      assert comments[|comments|-1].id == c.id;
    } else {
      MinePresent(comments[..|comments|-1], me, c);
      var i :| 0 <= i < |comments| - 1 && comments[..|comments|-1][i].id == c.id;
      assert comments[i].id == c.id;
    }
  }

  /** The calls of one post. */
  ghost function CallsOf(t: seq<Comment>, me: int, h: nat, newId: int, jd: JobData, outliers: seq<string>,
                         fault: Fault, dryRun: bool): seq<Call>
  {
    var list := List(h, jd, outliers, !fault.ListFails?, dryRun);
    var found := OldComment(t, me);
    if fault.ListFails? || dryRun || found.TooMany? || OldEntries(found, jd.sha).None? then [list]
    else if !found.Found? then [list, Create(h, newId, !fault.CreateFails?)]
    else if fault.DeleteFails? then [list, Delete(h, false)]
    else [list, Delete(h, true), Create(h, newId, !fault.CreateFails?)]
  }

  lemma OneCall(me: int, limit: nat, s: State, c: Call)
    requires Enabled(me, s, c) && |Next(me, s, c).flying| <= limit
    ensures Runs(me, limit, s, [c]) && Exec(me, limit, s, [c]) == Next(me, s, c)
    ensures forall job :: CommandsSent(me, limit, s, [c], job) == if Starts(s, c, job) then 1 else 0
  {
    hide Enabled, Next, Starts;
    assert [c][1..] == [];
  }

  lemma {:induction false} RunsConcat(me: int, limit: nat, s: State, cs: seq<Call>, ds: seq<Call>)
    requires Runs(me, limit, s, cs) && Runs(me, limit, Exec(me, limit, s, cs), ds)
    ensures Runs(me, limit, s, cs + ds)
    ensures Exec(me, limit, s, cs + ds) == Exec(me, limit, Exec(me, limit, s, cs), ds)
    ensures forall job :: (CommandsSent(me, limit, s, cs + ds, job)
              == CommandsSent(me, limit, s, cs, job) + CommandsSent(me, limit, Exec(me, limit, s, cs), ds, job))
    decreases |cs|
  {
    hide Enabled, Next, Starts;
    if cs == [] {
      assert cs + ds == ds;
    } else {
      assert (cs + ds)[1..] == cs[1..] + ds;
      RunsConcat(me, limit, Next(me, s, cs[0]), cs[1..], ds);
    }
  }

  lemma TwoCalls(me: int, limit: nat, s: State, c: Call, d: Call)
    requires Enabled(me, s, c) && |Next(me, s, c).flying| <= limit
    requires Enabled(me, Next(me, s, c), d) && |Next(me, Next(me, s, c), d).flying| <= limit
    ensures Runs(me, limit, s, [c, d]) && Exec(me, limit, s, [c, d]) == Next(me, Next(me, s, c), d)
    ensures forall job :: (CommandsSent(me, limit, s, [c, d], job)
              == (if Starts(s, c, job) then 1 else 0) + (if Starts(Next(me, s, c), d, job) then 1 else 0))
  {
    hide Enabled, Next, Starts, Runs, Exec, CommandsSent;
    OneCall(me, limit, s, c);
    OneCall(me, limit, Next(me, s, c), d);
    RunsConcat(me, limit, s, [c], [d]);
    assert [c] + [d] == [c, d];
  }

  lemma OnlyOneLeft(m: map<nat, Stage>, h: nat)
    requires m == map[]
    ensures forall f: Stage {:trigger m[h := f]} :: m[h := f] - {h} == map[] && |m[h := f]| == 1
  {
    forall f: Stage {:trigger m[h := f]} ensures m[h := f] - {h} == map[] && |m[h := f]| == 1 {
      assert m[h := f].Keys == {h};
    }
  }

  /** Left alone, the three calls of a handler are one `PostComment`, whichever of them fails. */
  lemma PostAlone(me: int, limit: nat, s: State, h: nat, newId: int, jd: JobData, outliers: seq<string>,
                  fault: Fault, dryRun: bool)
    requires limit > 0 && s.flying == map[]
    ensures var cs := CallsOf(s.comments, me, h, newId, jd, outliers, fault, dryRun);
      && Runs(me, limit, s, cs)
      && Exec(me, limit, s, cs) == State(Post(s.comments, me, newId, jd, outliers, fault, dryRun).comments, map[])
      && forall job :: CommandsSent(me, limit, s, cs, job)
           == if Sends(me, s.comments, Run(jd, outliers, newId, fault, dryRun), job) then 1 else 0
  {
    hide Mine, Remove, NewBody, Runs, Exec, CommandsSent, WithJob, Marker, FindAll, ParseRows;
    var list := List(h, jd, outliers, !fault.ListFails?, dryRun);
    var found := OldComment(s.comments, me);
    OnlyOneLeft(s.flying, h);
    var a := Next(me, s, list);
    OneCall(me, limit, s, list);
    if fault.ListFails? || dryRun || found.TooMany? || OldEntries(found, jd.sha).None? {
    } else if !found.Found? {
      TwoCalls(me, limit, s, list, Create(h, newId, !fault.CreateFails?));
    } else {
      MinePresent(s.comments, me, found.comment);
      if fault.DeleteFails? {
        TwoCalls(me, limit, s, list, Delete(h, false));
      } else {
        ReplacesOld(me, limit, s, a, h, newId, jd, outliers, fault);
      }
    }
  }

  lemma ReplacesOld(me: int, limit: nat, s: State, a: State, h: nat, newId: int, jd: JobData, outliers: seq<string>,
                    fault: Fault)
    requires limit > 0 && s.flying == map[] && OldComment(s.comments, me).Found?
    requires OldEntries(OldComment(s.comments, me), jd.sha).Some?
    requires Present(s.comments, OldComment(s.comments, me).comment.id)
    requires !fault.ListFails? && !fault.DeleteFails?
    requires a == Next(me, s, List(h, jd, outliers, true, false))
    ensures var cs := [List(h, jd, outliers, true, false), Delete(h, true), Create(h, newId, !fault.CreateFails?)];
      && Runs(me, limit, s, cs)
      && Exec(me, limit, s, cs) == State(Post(s.comments, me, newId, jd, outliers, fault, false).comments, map[])
      && forall job :: CommandsSent(me, limit, s, cs, job)
           == if Sends(me, s.comments, Run(jd, outliers, newId, fault, false), job) then 1 else 0
  {
    hide Mine, Remove, NewBody, Runs, Exec, CommandsSent, WithJob, Marker, FindAll, ParseRows, Present;
    var list := List(h, jd, outliers, true, false);
    OnlyOneLeft(s.flying, h);
    OneCall(me, limit, s, list);
    TwoCalls(me, limit, a, Delete(h, true), Create(h, newId, !fault.CreateFails?));
    RunsConcat(me, limit, s, [list], [Delete(h, true), Create(h, newId, !fault.CreateFails?)]);
    assert [list] + [Delete(h, true), Create(h, newId, !fault.CreateFails?)]
        == [list, Delete(h, true), Create(h, newId, !fault.CreateFails?)];
  }

  // ----- One post at a time --------------------------------------------------------------

  /** The serialized conversation `u` that stands for a state: a post in flight has not begun there. */
  ghost predicate Stands(me: int, u: seq<Comment>, s: State)
  {
    && (s.flying == map[] ==> Mine(u, me) == Mine(s.comments, me))
    && forall h :: h in s.flying ==> StageStands(me, u, s.comments, s.flying[h])
  }

  ghost predicate StageStands(me: int, u: seq<Comment>, comments: seq<Comment>, f: Stage)
  {
    match f
    case ToDelete(c, jd, _, m) =>
      Mine(u, me) == Mine(comments, me) == [c] && OldEntries(OldComment(u, me), jd.sha) == Some(m)
    case ToCreate(jd, _, m) =>
      Mine(comments, me) == [] && !OldComment(u, me).TooMany? && OldEntries(OldComment(u, me), jd.sha) == Some(m)
  }

  lemma SmallMap(m: map<nat, Stage>, h: nat)
    requires |m| <= 1 && h in m
    ensures m - {h} == map[] && forall g :: g in m ==> g == h
  {
    assert {h} <= m.Keys;
    if g: nat :| g in m && g != h {
      SubsetSize({g, h}, m.Keys);
    }
    assert (m - {h}).Keys == {};
  }

  lemma NoRoom(m: map<nat, Stage>, h: nat, f: Stage)
    requires h !in m && |m[h := f]| <= 1
    ensures m == map[]
  {
    assert m[h := f].Keys == m.Keys + {h};
    assert |m.Keys| == 0;
  }

  /** Every call but a creation is invisible in the serialized conversation. */
  lemma QuietCall(me: int, u: seq<Comment>, s: State, c: Call)
    requires Stands(me, u, s) && Enabled(me, s, c) && !c.Create?
    requires |s.flying| <= 1 && |Next(me, s, c).flying| <= 1
    ensures Stands(me, u, Next(me, s, c))
  {
    hide Mine, Remove, Marker, FindAll, ParseRows, NewBody, Present;
    match c
    case List(h, jd, outliers, ok, dryRun) =>
      var v := Next(me, s, c);
      if v != s {
        NoRoom(s.flying, h, v.flying[h]);
        MineDecides(u, s.comments, me);
      }
    case Delete(h, ok) =>
      SmallMap(s.flying, h);
      OneMine(s.comments, me, s.flying[h].current);
    case Meanwhile(comments) =>
  }

  lemma MineDecides(u: seq<Comment>, t: seq<Comment>, me: int)
    requires Mine(u, me) == Mine(t, me)
    ensures OldComment(u, me) == OldComment(t, me)
  {
  }

  lemma OneMine(t: seq<Comment>, me: int, c: Comment)
    requires Mine(t, me) == [c]
    ensures Mine(Remove(t, c.id), me) == []
  {
    hide Remove;
    MineAfterDelete(t, me);
  }

  /** The serialized event of a creation. */
  function EventOf(s: State, c: Call): Event
    requires c.Create? && c.handler in s.flying
  {
    var f := s.flying[c.handler];
    Run(f.jd, f.outliers, c.newId, if c.ok then NoFault else CreateFails, false)
  }

  lemma MineGrows(t: seq<Comment>, me: int, c: Comment)
    requires Mine(t, me) == []
    ensures Mine(t + [c], me) == if IsMine(c, me) then [c] else []
  {
    assert (t + [c])[..|t|] == t;
  }

  /** A creation is a whole post there. */
  lemma CreateCall(me: int, u: seq<Comment>, s: State, c: Call) returns (v: seq<Comment>)
    requires Stands(me, u, s) && Enabled(me, s, c) && c.Create? && |s.flying| <= 1
    ensures Step(me, u, EventOf(s, c), v) && Stands(me, v, Next(me, s, c))
    ensures forall job :: Starts(s, c, job) <==> Sends(me, u, EventOf(s, c), job)
  {
    hide Mine, Remove, Marker, FindAll, ParseRows, NewBody, IsMine, WithJob;
    var f := s.flying[c.handler];
    SmallMap(s.flying, c.handler);
    assert StageStands(me, u, s.comments, f);
    var e := EventOf(s, c);
    v := Post(u, me, e.newId, e.jd, e.outliers, e.fault, e.dryRun).comments;
    var found := OldComment(u, me);
    var left := if found.Found? then Remove(u, found.comment.id) else u;
    MineAfterDelete(u, me);
    if c.ok {
      var n := Comment(c.newId, me, NewBody(f.entries, f.jd, f.outliers));
      MineGrows(left, me, n);
      MineGrows(s.comments, me, n);
    }
  }

  /** All posts in flight can be printed. */
  ghost predicate PlainFlying(sha: string, s: State)
  {
    forall h :: h in s.flying ==> Plain(sha, Run(s.flying[h].jd, s.flying[h].outliers, 0, NoFault, false))
  }

  lemma PlainNext(me: int, sha: string, s: State, c: Call)
    requires PlainFlying(sha, s) && Enabled(me, s, c) && PlainCall(sha, c)
    ensures PlainFlying(sha, Next(me, s, c))
    ensures c.Create? ==> Plain(sha, EventOf(s, c))
  {
    hide CellText, ShaText, NoCell, Printed, Mine, Remove, OldEntries;
  }

  /** With at most one post in flight, every run is a serialized one: the same commands are sent, in the
      same order, and between posts the retryer's comments are the same. */
  lemma {:induction false} Serialized(me: int, sha: string, u: seq<Comment>, s: State, cs: seq<Call>)
    returns (ts: seq<seq<Comment>>, es: seq<Event>)
    requires Stands(me, u, s) && |s.flying| <= 1 && Runs(me, 1, s, cs)
    requires PlainFlying(sha, s) && forall i :: 0 <= i < |cs| ==> PlainCall(sha, cs[i])
    ensures Trace(me, ts, es) && ts[0] == u && Stands(me, ts[|es|], Exec(me, 1, s, cs))
    ensures forall job :: Sent(me, ts, es, job) == CommandsSent(me, 1, s, cs, job)
    ensures forall i :: 0 <= i < |es| ==> Plain(sha, es[i]) && es[i].Run? && !es[i].dryRun
                                          && (es[i].fault.NoFault? || es[i].fault.CreateFails?)
    ensures (forall i :: 0 <= i < |cs| && cs[i].Create? ==> cs[i].ok) ==>
              forall i :: 0 <= i < |es| ==> es[i].fault.NoFault?
    ensures (exists i :: 0 <= i < |cs| && cs[i].Create?) ==> es != []
    decreases |cs|
  {
    hide Stands, Enabled, Next, Starts, PlainFlying, PlainCall, Plain, Step, Sends;
    if cs == [] {
      ts, es := [u], [];
    } else {
      PlainNext(me, sha, s, cs[0]);
      if cs[0].Create? {
        Creating(me, s, cs[0]);
        var v := CreateCall(me, u, s, cs[0]);
        ts, es := Serialized(me, sha, v, Next(me, s, cs[0]), cs[1..]);
        var e := EventOf(s, cs[0]);
        assert ([u] + ts)[1..] == ts && ([e] + es)[1..] == es;
        ts, es := [u] + ts, [e] + es;
      } else {
        QuietCall(me, u, s, cs[0]);
        NoCommand(s, cs[0]);
        ts, es := Serialized(me, sha, u, Next(me, s, cs[0]), cs[1..]);
      }
    }
  }

  lemma Creating(me: int, s: State, c: Call)
    requires Enabled(me, s, c) && c.Create?
    ensures c.handler in s.flying
  {
  }

  lemma NoCommand(s: State, c: Call)
    requires !c.Create?
    ensures forall job :: !Starts(s, c, job)
  {
  }

  lemma StandsAtRest(me: int, s: State)
    requires s.flying == map[]
    ensures Stands(me, s.comments, s)
  {
  }

  lemma NothingFlying(me: int, u: seq<Comment>, s: State)
    requires Stands(me, u, s) && s.flying == map[]
    ensures Mine(u, me) == Mine(s.comments, me)
  {
  }

  lemma MineCounts(u: seq<Comment>, t: seq<Comment>, me: int, sha: string, job: string)
    requires Mine(u, me) == Mine(t, me)
    ensures Counter(u, me, sha, job) == Counter(t, me, sha, job)
    ensures Remembers(u, me, sha) <==> Remembers(t, me, sha)
  {
    hide Mine;
    MineDecides(u, t, me);
  }

  lemma NobodyFlies(sha: string, s: State)
    requires s.flying == map[]
    ensures PlainFlying(sha, s)
  {
  }

  /** One post at a time, and no creation failing: each job is sent at most three commands, and at rest
      exactly as many as its counter grew. */
  lemma AtMostThreeAlone(me: int, sha: string, s: State, cs: seq<Call>, job: string)
    requires CellText(job)
    requires s.flying == map[] && Remembers(s.comments, me, sha) && Runs(me, 1, s, cs) && Clean(sha, cs)
    ensures CommandsSent(me, 1, s, cs, job) <= MAX_RETRIES
    ensures var v := Exec(me, 1, s, cs);
      v.flying == map[] ==>
        && Remembers(v.comments, me, sha)
        && Counter(s.comments, me, sha, job) + CommandsSent(me, 1, s, cs, job) == Counter(v.comments, me, sha, job)
  {
    hide Stands, Runs, Exec, CommandsSent, PlainFlying, PlainCall, Plain, Step, Remembers, Counter, Sent;
    StandsAtRest(me, s);
    NobodyFlies(sha, s);
    var ts, es := Serialized(me, sha, s.comments, s, cs);
    AtMostThreeRetries(me, sha, ts, es, job);
    var v := Exec(me, 1, s, cs);
    if v.flying == map[] {
      NothingFlying(me, ts[|es|], v);
      MineCounts(ts[|es|], v.comments, me, sha, job);
    }
  }

  /** The same with failing creations: the exact law of the serialized runs carries over. */
  lemma LawAlone(me: int, sha: string, s: State, cs: seq<Call>, job: string)
    requires CellText(job)
    requires s.flying == map[] && Remembers(s.comments, me, sha) && Runs(me, 1, s, cs)
    requires forall i :: 0 <= i < |cs| ==> PlainCall(sha, cs[i])
    requires Exec(me, 1, s, cs).flying == map[]
    ensures var v := Exec(me, 1, s, cs);
      exists ts, es ::
        && Trace(me, ts, es) && ts[0] == s.comments && Mine(ts[|es|], me) == Mine(v.comments, me)
        && CommandsSent(me, 1, s, cs, job) == Sent(me, ts, es, job)
        && Counter(s.comments, me, sha, job) + CommandsSent(me, 1, s, cs, job)
           == Counter(v.comments, me, sha, job) + Wiped(me, ts, es, sha, job)
        && CommandsSent(me, 1, s, cs, job) <= MAX_RETRIES * (Losses(me, ts, es) + 1)
  {
    hide Stands, Runs, Exec, CommandsSent, PlainFlying, PlainCall, Plain, Step, Remembers, Counter, Sent, Wiped, Losses;
    StandsAtRest(me, s);
    NobodyFlies(sha, s);
    var ts, es := Serialized(me, sha, s.comments, s, cs);
    CounterLaw(me, sha, ts, es, job);
    ThreeRetriesPerLoss(me, sha, ts, es, job);
    var v := Exec(me, 1, s, cs);
    NothingFlying(me, ts[|es|], v);
    MineCounts(ts[|es|], v.comments, me, sha, job);
  }

  lemma {:induction false} OneCommentStays(me: int, sha: string, ts: seq<seq<Comment>>, es: seq<Event>)
    requires Trace(me, ts, es) && Remembers(ts[0], me, sha)
    requires forall i :: 0 <= i < |es| ==> Plain(sha, es[i]) && es[i].Run? && es[i].fault.NoFault? && !es[i].dryRun
    requires es != []
    ensures |Mine(ts[|es|], me)| == 1
    decreases |es|
  {
    hide Remembers, Plain, Post;
    var e := es[0];
    PlainRun(sha, e);
    PostRemembers(ts[0], me, e.newId, e.jd, e.outliers);
    if |es| > 1 { OneCommentStays(me, sha, ts[1..], es[1..]); }
  }

  lemma PlainRun(sha: string, e: Event)
    requires Plain(sha, e) && e.Run?
    ensures e.jd.sha == sha && Plain(sha, Run(e.jd, e.outliers, e.newId, NoFault, false))
  {
  }

  /** One post at a time, and no creation failing: at rest after a post there is exactly one comment of
      the retryer. */
  lemma OneCommentAlone(me: int, sha: string, s: State, cs: seq<Call>)
    requires s.flying == map[] && Remembers(s.comments, me, sha) && Runs(me, 1, s, cs) && Clean(sha, cs)
    requires exists i :: 0 <= i < |cs| && cs[i].Create?
    requires Exec(me, 1, s, cs).flying == map[]
    ensures |Mine(Exec(me, 1, s, cs).comments, me)| == 1
  {
    hide Stands, Runs, Exec, PlainFlying, PlainCall, Plain, Step, Remembers, Mine;
    StandsAtRest(me, s);
    NobodyFlies(sha, s);
    var ts, es := Serialized(me, sha, s.comments, s, cs);
    OneCommentStays(me, sha, ts, es);
    NothingFlying(me, ts[|es|], Exec(me, 1, s, cs));
  }

  /** Never more than one comment, at any moment, for any posts. */
  ghost predicate AtMostOne(me: int, s: State)
  {
    && |Mine(s.comments, me)| <= 1
    && forall h :: h in s.flying ==>
         Mine(s.comments, me) == if s.flying[h].ToDelete? then [s.flying[h].current] else []
  }

  lemma AtMostOneStep(me: int, s: State, c: Call)
    requires AtMostOne(me, s) && Enabled(me, s, c) && |s.flying| <= 1 && |Next(me, s, c).flying| <= 1
    ensures AtMostOne(me, Next(me, s, c))
  {
    hide Mine, Remove, Marker, FindAll, ParseRows, NewBody, IsMine;
    match c
    case List(h, jd, outliers, ok, dryRun) =>
      var v := Next(me, s, c);
      if v != s {
        NoRoom(s.flying, h, v.flying[h]);
        FoundIsMine(s.comments, me);
      }
    case Delete(h, ok) =>
      SmallMap(s.flying, h);
      OneMine(s.comments, me, s.flying[h].current);
    case Create(h, newId, ok) =>
      var f := s.flying[h];
      SmallMap(s.flying, h);
      MineGrows(s.comments, me, Comment(newId, me, NewBody(f.entries, f.jd, f.outliers)));
    case Meanwhile(comments) =>
  }

  lemma FoundIsMine(t: seq<Comment>, me: int)
    ensures OldComment(t, me).Found? ==> Mine(t, me) == [OldComment(t, me).comment]
    ensures OldComment(t, me).NoComment? ==> Mine(t, me) == []
  {
  }

  lemma {:induction false} AtMostOneAlone(me: int, s: State, cs: seq<Call>)
    requires AtMostOne(me, s) && |s.flying| <= 1 && Runs(me, 1, s, cs)
    ensures AtMostOne(me, Exec(me, 1, s, cs))
    decreases |cs|
  {
    hide AtMostOne, Enabled, Next;
    if cs != [] {
      AtMostOneStep(me, s, cs[0]);
      AtMostOneAlone(me, Next(me, s, cs[0]), cs[1..]);
    }
  }

  // ----- Two posts at a time -------------------------------------------------------------

  /** A handler lists the old comment and deletes it; nothing is sent so far. */
  lemma OneDeletes(me: int, limit: nat, s: State, first: JobData) returns (b: State)
    requires limit >= 1 && s.flying == map[] && Remembers(s.comments, me, first.sha)
    requires OldComment(s.comments, me).Found?
    ensures var cs := [List(0, first, [], true, false), Delete(0, true)];
      && Runs(me, limit, s, cs) && Exec(me, limit, s, cs) == b
      && forall job :: CommandsSent(me, limit, s, cs, job) == 0
    ensures Mine(b.comments, me) == [] && b.flying.Keys == {0}
  {
    hide Runs, Exec, CommandsSent, Mine, Remove, OldEntries, GoodTable, IsMine;
    var found := OldComment(s.comments, me);
    var l0, d0 := List(0, first, [], true, false), Delete(0, true);
    OnlyOneLeft(s.flying, 0);
    FoundIsMine(s.comments, me);
    MinePresent(s.comments, me, found.comment);
    var a := Next(me, s, l0);
    assert a.flying == map[0 := ToDelete(found.comment, first, [], OldEntries(found, first.sha).value)];
    b := Next(me, a, d0);
    OneMine(s.comments, me, found.comment);
    assert b.flying.Keys == {0};
    TwoCalls(me, limit, s, l0, d0);
  }

  /** Another one lists in between, finds nothing and sends a command. */
  lemma OtherSends(me: int, limit: nat, b: State, jd: JobData, newId: int)
    requires limit >= 2 && Mine(b.comments, me) == [] && b.flying.Keys == {0} && PlainJob(jd)
    ensures var cs := [List(1, jd, [], true, false), Create(1, newId, true)];
      Runs(me, limit, b, cs) && CommandsSent(me, limit, b, cs, jd.name) == 1
  {
    hide Runs, Exec, CommandsSent, Mine, NewBody, Commands, PlainJob, OldEntries;
    var l1, c1 := List(1, jd, [], true, false), Create(1, newId, true);
    NothingListed(b.comments, me, jd.sha);
    var c := Next(me, b, l1);
    assert c.flying == b.flying[1 := ToCreate(jd, [], map[])];
    TwoFlying(b.flying, c.flying);
    CountsFromNothing(jd);
    TwoCalls(me, limit, b, l1, c1);
  }

  /** A list between the deletion and the creation of another handler: whatever the old comment had
      counted, the job is sent a command again, and no call fails. */
  lemma OverlapSendsAgain(me: int, limit: nat, s: State, first: JobData, jd: JobData, newId: int)
    returns (cs: seq<Call>)
    requires limit >= 2 && s.flying == map[] && Remembers(s.comments, me, jd.sha) && first.sha == jd.sha
    requires PlainJob(first) && PlainJob(jd) && OldComment(s.comments, me).Found?
    ensures Runs(me, limit, s, cs) && CommandsSent(me, limit, s, cs, jd.name) == 1 && Clean(jd.sha, cs)
  {
    hide Runs, Exec, CommandsSent, Remembers, OldComment, PlainCall, PlainJob;
    var b := OneDeletes(me, limit, s, first);
    OtherSends(me, limit, b, jd, newId);
    var one: seq<Call>, other: seq<Call> :=
      [List(0, first, [], true, false), Delete(0, true)], [List(1, jd, [], true, false), Create(1, newId, true)];
    cs := one + other;
    RunsConcat(me, limit, s, one, other);
    PlainList(0, first);
    PlainList(1, jd);
    OtherCallsPlain(jd.sha, newId);
  }

  lemma OtherCallsPlain(sha: string, newId: int)
    ensures PlainCall(sha, Delete(0, true)) && PlainCall(sha, Create(1, newId, true))
  {
  }

  lemma CountsFromNothing(jd: JobData)
    requires PlainJob(jd)
    ensures Commands(NewBody(map[], jd, []), jd.name) && CellText(jd.name)
  {
    hide Commands, NewBody;
    PlainCommands(map[], jd, []);
  }

  lemma PlainList(h: nat, jd: JobData)
    requires PlainJob(jd)
    ensures PlainCall(jd.sha, List(h, jd, [], true, false))
  {
    hide Plain;
  }

  lemma NothingListed(t: seq<Comment>, me: int, sha: string)
    requires Mine(t, me) == []
    ensures OldComment(t, me) == NoComment && OldEntries(OldComment(t, me), sha) == Some(map[])
  {
  }

  lemma TwoFlying(m: map<nat, Stage>, n: map<nat, Stage>)
    requires m.Keys == {0} && n.Keys == {0, 1}
    ensures |m| == 1 && |n| == 2 && forall g :: |n - {g}| <= 2
  {
    assert |m.Keys| == 1 && |n.Keys| == 2;
    forall g ensures |n - {g}| <= 2 {
      assert (n - {g}).Keys == n.Keys - {g};
      SubsetSize(n.Keys - {g}, n.Keys);
    }
  }

  lemma BothFlying(me: int, limit: nat, s: State, a: JobData, b: JobData)
    requires limit >= 2 && s.flying == map[] && Mine(s.comments, me) == []
    ensures var cs := [List(0, a, [], true, false), List(1, b, [], true, false)];
      && Runs(me, limit, s, cs)
      && Exec(me, limit, s, cs)
         == State(s.comments, map[0 := ToCreate(a, [], map[]), 1 := ToCreate(b, [], map[])])
  {
    hide Runs, Exec, CommandsSent, Mine, OldEntries;
    var l0, l1 := List(0, a, [], true, false), List(1, b, [], true, false);
    NothingListed(s.comments, me, a.sha);
    NothingListed(s.comments, me, b.sha);
    OnlyOneLeft(s.flying, 0);
    var x := Next(me, s, l0);
    var y := Next(me, x, l1);
    assert x.flying == map[0 := ToCreate(a, [], map[])];
    assert y.flying == map[0 := ToCreate(a, [], map[]), 1 := ToCreate(b, [], map[])];
    TwoFlying(x.flying, y.flying);
    TwoCalls(me, limit, s, l0, l1);
  }

  lemma NewIsMine(me: int, newId: int, jd: JobData)
    requires PlainJob(jd)
    ensures IsMine(Comment(newId, me, NewBody(map[], jd, [])), me)
  {
    hide CommentText, Marker, Updated, CommandText;
    var before := WithJob(map[], jd.name);
    MarkerRoundTrip(jd.sha, Updated(before, jd, []), CommandText(jd, before[jd.name].retries, []));
  }

  lemma MineOfTwo(t: seq<Comment>, me: int, c: Comment, d: Comment)
    requires Mine(t, me) == [] && IsMine(c, me) && IsMine(d, me)
    ensures |Mine(t + [c] + [d], me)| == 2
  {
    hide IsMine;
    MineGrows(t, me, c);
    assert (t + [c] + [d])[..|t| + 1] == t + [c];
  }

  /** Two handlers that both list an empty conversation both create: there are two comments of the
      retryer, and no call failed. */
  lemma OverlapDoublesComment(me: int, limit: nat, s: State, a: JobData, b: JobData, id: int, newId: int)
    returns (cs: seq<Call>)
    requires limit >= 2 && s.flying == map[] && Mine(s.comments, me) == [] && PlainJob(a) && PlainJob(b)
    ensures Runs(me, limit, s, cs) && Exec(me, limit, s, cs).flying == map[]
    ensures |Mine(Exec(me, limit, s, cs).comments, me)| == 2
    ensures a.sha == b.sha ==> Clean(a.sha, cs)
  {
    hide Runs, Exec, CommandsSent, Mine, Marker, NewBody, Plain, IsMine;
    var l0, l1 := List(0, a, [], true, false), List(1, b, [], true, false);
    var c0, c1 := Create(0, id, true), Create(1, newId, true);
    BothFlying(me, limit, s, a, b);
    var x := Exec(me, limit, s, [l0, l1]);
    var y := Next(me, x, c0);
    assert y.flying == map[1 := ToCreate(b, [], map[])];
    var z := Next(me, y, c1);
    assert z.flying == map[];
    assert |y.flying.Keys| == 1;
    TwoCalls(me, limit, x, c0, c1);
    RunsConcat(me, limit, s, [l0, l1], [c0, c1]);
    cs := [l0, l1] + [c0, c1];
    NewIsMine(me, id, a);
    NewIsMine(me, newId, b);
    MineOfTwo(s.comments, me, Comment(id, me, NewBody(map[], a, [])), Comment(newId, me, NewBody(map[], b, [])));
    PlainList(0, a);
    PlainList(1, b);
  }

  /** From then on the retryer is silent: every later post gives up, until somebody else removes a
      comment. */
  lemma {:induction false} TwoCommentsSilence(me: int, limit: nat, s: State, cs: seq<Call>, job: string)
    requires s.flying == map[] && |Mine(s.comments, me)| >= 2 && Runs(me, limit, s, cs)
    ensures Exec(me, limit, s, cs).flying == map[] && Mine(Exec(me, limit, s, cs).comments, me) == Mine(s.comments, me)
    ensures CommandsSent(me, limit, s, cs, job) == 0
    decreases |cs|
  {
    hide Mine;
    if cs != [] {
      TwoCommentsSilence(me, limit, Next(me, s, cs[0]), cs[1..], job);
    }
  }

  // ----- How many posts at a time the promises bear --------------------------------------

  /** From every state at rest, over every run at one commit in which no creation fails, each job is
      sent at most three commands. */
  ghost predicate KeepsPromise(me: int, limit: nat)
  {
    forall s: State, cs, sha, job ::
      && s.flying == map[] && Remembers(s.comments, me, sha) && Runs(me, limit, s, cs) && Clean(sha, cs)
      && CellText(job) ==>
        CommandsSent(me, limit, s, cs, job) <= MAX_RETRIES
  }

  /** From every state at rest with at most one comment there is never more than one. */
  ghost predicate KeepsOneComment(me: int, limit: nat)
  {
    forall s: State, cs :: s.flying == map[] && |Mine(s.comments, me)| <= 1 && Runs(me, limit, s, cs) ==>
      |Mine(Exec(me, limit, s, cs).comments, me)| <= 1
  }

  /** Nothing runs where nothing may be in flight, except calls that leave nothing in flight. */
  lemma {:induction false} LimitZero(me: int, s: State, cs: seq<Call>)
    requires Runs(me, 0, s, cs)
    ensures Runs(me, 1, s, cs) && Exec(me, 1, s, cs) == Exec(me, 0, s, cs)
    ensures forall job :: CommandsSent(me, 1, s, cs, job) == CommandsSent(me, 0, s, cs, job)
    decreases |cs|
  {
    hide Enabled, Next, Starts;
    if cs != [] { LimitZero(me, Next(me, s, cs[0]), cs[1..]); }
  }

  const SAMPLE := JobData("job", "sha", "time", "url")

  lemma SampleIsPlain()
    ensures PlainJob(SAMPLE)
  {
  }

  lemma {:induction false} PostsAlone(me: int, limit: nat, jd: JobData, n: nat) returns (cs: seq<Call>)
    requires limit > 0 && PlainJob(jd) && n <= MAX_RETRIES
    ensures var s := State([], map[]);
      && Runs(me, limit, s, cs) && Clean(jd.sha, cs) && CommandsSent(me, limit, s, cs, jd.name) == n
      && Exec(me, limit, s, cs).flying == map[] && Remembers(Exec(me, limit, s, cs).comments, me, jd.sha)
      && Counter(Exec(me, limit, s, cs).comments, me, jd.sha, jd.name) == n
  {
    hide Runs, Exec, CommandsSent, Remembers, Counter, Plain, Sends, Post, CallsOf;
    var s := State([], map[]);
    if n == 0 {
      cs := [];
      NoCalls(me, limit, s);
      EmptyConversation(me, jd.sha, jd.name);
    } else {
      cs := PostsAlone(me, limit, jd, n - 1);
      var v := Exec(me, limit, s, cs);
      PostAlone(me, limit, v, 0, n, jd, [], NoFault, false);
      var u := PostCounts(v.comments, me, n, jd);
      var ds := CallsOf(v.comments, me, 0, n, jd, [], NoFault, false);
      RunsConcat(me, limit, s, cs, ds);
      CallsAreClean(v.comments, me, n, jd);
      assert Clean(jd.sha, cs + ds);
      cs := cs + ds;
    }
  }

  lemma NoCalls(me: int, limit: nat, s: State)
    ensures Runs(me, limit, s, []) && Exec(me, limit, s, []) == s
    ensures forall job :: CommandsSent(me, limit, s, [], job) == 0
  {
  }

  lemma CallsAreClean(t: seq<Comment>, me: int, newId: int, jd: JobData)
    requires PlainJob(jd)
    ensures Clean(jd.sha, CallsOf(t, me, 0, newId, jd, [], NoFault, false))
  {
    hide Plain, Mine, Marker, FindAll;
    PlainList(0, jd);
  }

  /** Three commands, and then a fourth. */
  lemma FourCommands(me: int, limit: nat, jd: JobData) returns (cs: seq<Call>)
    requires limit >= 2 && PlainJob(jd)
    ensures var s := State([], map[]);
      Runs(me, limit, s, cs) && Clean(jd.sha, cs) && CommandsSent(me, limit, s, cs, jd.name) == MAX_RETRIES + 1
  {
    hide Runs, Exec, CommandsSent, Remembers, Counter, Plain, PlainCall;
    var s := State([], map[]);
    cs := PostsAlone(me, limit, jd, MAX_RETRIES);
    var v := Exec(me, limit, s, cs);
    CountedIsFound(v.comments, me, jd.sha, jd.name);
    var ds := OverlapSendsAgain(me, limit, v, jd, jd, MAX_RETRIES + 1);
    RunsConcat(me, limit, s, cs, ds);
    cs := cs + ds;
  }

  lemma CountedIsFound(t: seq<Comment>, me: int, sha: string, job: string)
    requires Remembers(t, me, sha) && Counter(t, me, sha, job) > 0
    ensures OldComment(t, me).Found?
  {
    hide Mine;
  }

  /** The promise of three commands is kept exactly as long as posts are made one at a time. */
  lemma PromiseIffAlone(me: int, limit: nat)
    ensures KeepsPromise(me, limit) <==> limit <= 1
  {
    hide Runs, Exec, CommandsSent, Remembers, Clean;
    if limit <= 1 {
      forall s: State, cs, sha, job |
        && s.flying == map[] && Remembers(s.comments, me, sha) && Runs(me, limit, s, cs) && Clean(sha, cs)
        && CellText(job)
        ensures CommandsSent(me, limit, s, cs, job) <= MAX_RETRIES
      {
        if limit == 0 { LimitZero(me, s, cs); }
        AtMostThreeAlone(me, sha, s, cs, job);
      }
    } else {
      SampleIsPlain();
      CountsFromNothing(SAMPLE);
      EmptyConversation(me, SAMPLE.sha, SAMPLE.name);
      var cs := FourCommands(me, limit, SAMPLE);
      assert State([], map[]).flying == map[];
    }
  }

  /** So is that of a single comment. */
  lemma OneCommentIffAlone(me: int, limit: nat)
    ensures KeepsOneComment(me, limit) <==> limit <= 1
  {
    hide Runs, Exec, Mine;
    if limit <= 1 {
      forall s: State, cs | s.flying == map[] && |Mine(s.comments, me)| <= 1 && Runs(me, limit, s, cs)
        ensures |Mine(Exec(me, limit, s, cs).comments, me)| <= 1
      {
        if limit == 0 { LimitZero(me, s, cs); }
        AtMostOneAlone(me, s, cs);
      }
    } else {
      SampleIsPlain();
      var s := State([], map[]);
      assert Mine(s.comments, me) == [] by { EmptyMine(me); }
      var cs := OverlapDoublesComment(me, limit, s, SAMPLE, SAMPLE, 1, 2);
    }
  }

  lemma EmptyMine(me: int)
    ensures Mine([], me) == []
  {
  }
}
