/**
 The handlers of the cluster pool service as programs (tools/dkcm/mainservice/mainservice.go). Run
 without interference, each of them takes exactly the steps of its protocol; the module Pool lets
 the steps of all of them interleave.
 */
module Service {
  import opened Text
  import opened Clerk
  import opened Pool

  /** The project leasing service. */
  class Boskos {
    var nextLease: nat
    var released: seq<nat>

    constructor ()
      ensures nextLease == 0 && released == []
    {
      nextLease, released := 0, [];
    }

    method Acquire(project: Option<string>) returns (lease: nat)
      modifies this`nextLease
      ensures lease == old(nextLease) && nextLease == if project.Some? then old(nextLease) + 1 else old(nextLease)
    {
      lease := nextLease;
      if project.Some? {
        nextLease := nextLease + 1;
      }
    }

    /** The call counts, whether or not it succeeds. */
    method Release(lease: nat) returns (ok: bool)
      modifies this`released
      ensures released == old(released) + [lease]
    {
      released := released + [lease];
      ok := *;
    }
  }

  /** The protocol state that the database and Boskos are in. */
  ghost predicate Shows(s: State, db: DBClient, boskos: Boskos)
    reads db, boskos
  {
    s.t == db.Content() && s.released == boskos.released && s.nextLease == boskos.nextLease
  }

  lemma {:induction false} OneMore(s: State, es: seq<Step>, e: Step)
    requires Runs(s, es) && Enabled(Exec(s, es), e)
    ensures Runs(s, es + [e]) && Exec(s, es + [e]) == Next(Exec(s, es), e)
    decreases |es|
  {
    hide Enabled, Next;
    if es == [] {
      assert (es + [e])[1..] == [];
    } else {
      assert (es + [e])[1..] == es[1..] + [e];
      OneMore(Next(s, es[0]), es[1..], e);
    }
  }

  predicate ByCleaner(e: Step, h: nat)
  {
    match e
    case CleanRead(g, _) => g == h
    case CleanGet(g, _) => g == h
    case CleanCheck(g, _) => g == h
    case CleanDelete(g, _) => g == h
    case CleanRelease(g) => g == h
    case _ => false
  }

  predicate ByCreator(e: Step, h: nat)
  {
    match e
    case Acquire(g, _, _) => g == h
    case Insert(g, _) => g == h
    case Build(g, _) => g == h
    case MarkReady(g, _) => g == h
    case MarkFailed(g, _) => g == h
    case CreateRelease(g) => g == h
    case _ => false
  }

  /** The look-ups of a cleaner change its program counter alone. */
  lemma CleanerLooks(s: State, es: seq<Step>, h: nat, r: int, get: bool)
    requires Runs(s, es) && h !in Exec(s, es).cleaners && r in Exec(s, es).t.requests
    ensures var t := Exec(s, es);
      var c := t.t.requests[r].clusterId;
      var two := es + [CleanRead(h, r)] + [CleanGet(h, get)];
      && Runs(s, two) && Exec(s, two) == Cleaning(t, h,
             if get && c in t.t.clusters then GotCluster(c, t.t.clusters[c].lease) else CleanerDone)
  {
    hide Runs, Exec;
    OneMore(s, es, CleanRead(h, r));
    OneMore(s, es + [CleanRead(h, r)], CleanGet(h, get));
  }

  lemma CleanerChecks(s: State, es: seq<Step>, h: nat, check: bool)
    requires Runs(s, es) && h in Exec(s, es).cleaners && Exec(s, es).cleaners[h].GotCluster?
    ensures var t := Exec(s, es);
      var pc := t.cleaners[h];
      && Runs(s, es + [CleanCheck(h, check)])
      && Exec(s, es + [CleanCheck(h, check)]) == Cleaning(t, h,
             if check && pc.clusterId in t.t.clusters then Checked(pc.clusterId, pc.lease) else CleanerDone)
  {
    hide Runs, Exec;
    OneMore(s, es, CleanCheck(h, check));
  }

  /** Which calls to the database succeed. */
  datatype CleanCalls = CleanCalls(read: bool, get: bool, check: bool, delete: bool)

  /** `handleCleanCluster`. */
  method HandleCleanCluster(db: DBClient, boskos: Boskos, token: string, calls: CleanCalls,
                            ghost s: State, ghost h: nat)
    returns (ok: bool, ghost es: seq<Step>)
    requires Shows(s, db, boskos) && h !in s.cleaners
    modifies db, boskos
    ensures Runs(s, es) && Shows(Exec(s, es), db, boskos)
    ensures forall i :: 0 <= i < |es| ==> ByCleaner(es[i], h)
    ensures ok ==> |boskos.released| == |old(boskos.released)| + 1
    ensures es != [] ==> h in Exec(s, es).cleaners && Exec(s, es).cleaners[h] == CleanerDone
    ensures calls == CleanCalls(true, true, true, true)
            && (exists q :: q in old(db.requests) && old(db.requests)[q].token == token)
            && (forall q :: q in old(db.requests) && old(db.requests)[q].token == token ==>
                  old(db.requests)[q].clusterId in old(db.clusters)) ==>
            exists q :: q in old(db.requests) && old(db.requests)[q].token == token
              && var c := old(db.requests)[q].clusterId;
                 c in old(db.clusters) && db.clusters == old(db.clusters) - {c}
                 && boskos.released == old(boskos.released) + [old(db.clusters)[c].lease]
  {
    ok, es := false, [];
    NoSteps(s);
    hide Runs, Exec;
    if !calls.read {
      return;
    }
    var found := db.GetRequest(token);
    if found.None? {
      return;
    }
    var clusterId := db.requests[found.value].clusterId;
    CleanerLooks(s, es, h, found.value, calls.get);
    es := es + [CleanRead(h, found.value)] + [CleanGet(h, calls.get)];
    if !calls.get || clusterId !in db.clusters {
      return;
    }
    var lease := db.clusters[clusterId].lease;
    CleanerChecks(s, es, h, calls.check);
    es := es + [CleanCheck(h, calls.check)];
    if !calls.check || clusterId !in db.clusters {
      return;
    }
    OneMore(s, es, CleanDelete(h, calls.delete));
    es := es + [CleanDelete(h, calls.delete)];
    if !calls.delete {
      return;
    }
    var deleted := db.DeleteCluster(clusterId);
    if !deleted {
      return;
    }
    OneMore(s, es, CleanRelease(h));
    es := es + [CleanRelease(h)];
    ok := boskos.Release(lease);
  }

  /** What the calls of a creation come back with: the project leased, whether the INSERT succeeds, the
      cluster is built, and the row can be marked. */
  datatype CreateCalls = CreateCalls(project: Option<string>, insert: bool, build: bool, mark: bool)

  /** The end of a creation that failed. */
  method MarkBroken(db: DBClient, boskos: Boskos, id: int, lease: nat, mark: bool,
                    ghost s: State, ghost h: nat, ghost before: seq<Step>)
    returns (ghost es: seq<Step>)
    requires Runs(s, before) && Shows(Exec(s, before), db, boskos)
    requires h in Exec(s, before).creators && Exec(s, before).creators[h] == Broken(id, lease)
    requires id in db.clusters
    modifies db, boskos
    ensures Runs(s, es) && Shows(Exec(s, es), db, boskos)
    ensures |before| < |es| <= |before| + 2 && es[..|before|] == before
    ensures forall i :: |before| <= i < |es| ==> ByCreator(es[i], h)
    ensures h in Exec(s, es).creators && Exec(s, es).creators[h] == CreatorDone
    ensures if mark
      then db.clusters == old(db.clusters)[id := old(db.clusters)[id].(status := Failed)]
           && boskos.released == old(boskos.released) + [lease]
      else db.clusters == old(db.clusters) && boskos.released == old(boskos.released)
  {
    hide Runs, Exec;
    OneMore(s, before, MarkFailed(h, mark));
    es := before + [MarkFailed(h, mark)];
    if !mark {
      return;
    }
    db.UpdateCluster(id, Failed);
    OneMore(s, es, CreateRelease(h));
    es := es + [CreateRelease(h)];
    var released := boskos.Release(lease);
  }

  /** Building the cluster whose row is inserted, and telling how that went. */
  method BuildCluster(db: DBClient, boskos: Boskos, id: int, lease: nat, calls: CreateCalls,
                      ghost s: State, ghost h: nat, ghost before: seq<Step>)
    returns (ghost es: seq<Step>)
    requires Runs(s, before) && Shows(Exec(s, before), db, boskos)
    requires h in Exec(s, before).creators && Exec(s, before).creators[h] == Inserted(id, lease)
    requires forall i :: 0 <= i < |before| ==> ByCreator(before[i], h)
    requires id in db.clusters && db.clusters[id].status == WIP
    modifies db, boskos
    ensures Runs(s, es) && Shows(Exec(s, es), db, boskos)
    ensures es != [] && forall i :: 0 <= i < |es| ==> ByCreator(es[i], h)
    ensures h in Exec(s, es).creators && Exec(s, es).creators[h] == CreatorDone
    ensures db.clusters == old(db.clusters)[id := old(db.clusters)[id].(status := Outcome(calls))]
    ensures boskos.released == old(boskos.released) + if calls.mark && !calls.build then [lease] else []
  {
    hide Runs, Exec;
    OneMore(s, before, Build(h, calls.build));
    es := before + [Build(h, calls.build)];
    if !calls.build {
      es := MarkBroken(db, boskos, id, lease, calls.mark, s, h, es);
      return;
    }
    OneMore(s, es, MarkReady(h, calls.mark));
    es := es + [MarkReady(h, calls.mark)];
    if calls.mark {
      db.UpdateCluster(id, Ready);
    }
  }

  /** A creator acquires a project and inserts its row, if the numbers are not used up. */
  lemma CreatorInserts(s: State, h: nat, project: string, p: Params, insert: bool)
    requires h !in s.creators
    ensures var es := [Acquire(h, project, p)] + [Insert(h, insert)];
      var t := s.(nextLease := s.nextLease + 1);
      && Runs(s, es)
      && Exec(s, es) == if insert && s.t.nextCluster <= MAX_ID
         then Creating(t, h, Inserted(s.t.nextCluster, s.nextLease))
                .(t := InsertedCluster(s.t, project, s.nextLease, p))
         else Creating(t, h, CreatorDone)
  {
    hide Runs, Exec;
    NoSteps(s);
    var one := [Acquire(h, project, p)];
    assert [] + one == one;
    OneMore(s, [], Acquire(h, project, p));
    OneMore(s, one, Insert(h, insert));
    var t := Creating(s, h, Acquired(project, s.nextLease, p)).(nextLease := s.nextLease + 1);
    assert Exec(s, one) == t;
    var done, row := CreatorDone, Inserted(s.t.nextCluster, s.nextLease);
    assert t.creators[h := done] == s.creators[h := done] && t.creators[h := row] == s.creators[h := row];
  }

  /** The status a new row ends with. */
  function Outcome(calls: CreateCalls): Status
  {
    if !calls.mark then WIP else if calls.build then Ready else Failed
  }

  /** `CreateCluster`: the row it inserts ends Ready if the cluster was built, and Failed with the project
      released if it was not. */
  method CreateCluster(db: DBClient, boskos: Boskos, p: Params, calls: CreateCalls, ghost s: State, ghost h: nat)
    returns (ghost es: seq<Step>)
    requires Shows(s, db, boskos) && h !in s.creators
    modifies db, boskos
    ensures Runs(s, es) && Shows(Exec(s, es), db, boskos)
    ensures forall i :: 0 <= i < |es| ==> ByCreator(es[i], h)
    ensures es != [] ==> h in Exec(s, es).creators && Exec(s, es).creators[h] == CreatorDone
    ensures var lease := old(boskos.nextLease);
      if calls.project.Some? && calls.insert && old(db.nextCluster) <= MAX_ID
      then db.clusters
             == old(db.clusters)[old(db.nextCluster) := Cluster(calls.project.value, lease, Outcome(calls), p)]
           && boskos.released == old(boskos.released) + if calls.mark && !calls.build then [lease] else []
      else db.clusters == old(db.clusters) && boskos.released == old(boskos.released)
  {
    es := [];
    NoSteps(s);
    hide Runs, Exec;
    var lease := boskos.Acquire(calls.project);
    if calls.project.None? {
      return;
    }
    var project := calls.project.value;
    CreatorInserts(s, h, project, p, calls.insert);
    es := [Acquire(h, project, p)] + [Insert(h, calls.insert)];
    if !calls.insert {
      return;
    }
    var id := db.InsertCluster(project, lease, p);
    if id.Some? {
      es := BuildCluster(db, boskos, id.value, lease, calls, s, h, es);
    }
  }

  lemma NoSteps(s: State)
    ensures Runs(s, []) && Exec(s, []) == s
  {
  }
}
