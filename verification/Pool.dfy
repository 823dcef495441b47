/**
 The cluster pool service as a protocol (tools/dkcm/mainservice/mainservice.go).

 Any number of handlers run at once. A handler that hands back a cluster and one that creates a
 cluster are split into their single database and Boskos calls, in any interleaving;
 `AssignCluster` is one step. Every call may fail where the source has an error branch.
 */
module Pool {
  import opened Text
  import opened Clerk

  /** `handleCleanCluster`: what it has read so far. */
  datatype Cleaner =
    | GotRequest(clusterId: int)
    | GotCluster(clusterId: int, lease: nat)
    | Checked(clusterId: int, lease: nat)
    | Deleted(lease: nat)
    | CleanerDone

  /** `CreateCluster`. */
  datatype Creator =
    | Acquired(project: string, lease: nat, params: Params)
    | Inserted(id: int, lease: nat)
    | Broken(id: int, lease: nat)
    | Releasing(lease: nat)
    | Built(id: int, lease: nat)
    | CreatorDone

  /** `released` lists the acquisitions for which a release was called, in order; `granted` the
      requests that were given a cluster. */
  datatype State = State(
    t: Tables,
    cleaners: map<nat, Cleaner>,
    creators: map<nat, Creator>,
    nextLease: nat,
    released: seq<nat>,
    granted: seq<int>)

  const EMPTY := State(Tables(map[], map[], 1, 1), map[], map[], 0, [], [])

  /** One call of one handler; `ok` tells whether the call succeeds. */
  datatype Step =
    | NewRequest(token: string, time: int, params: Params, prowJob: string)
    | ClearTimeOut(cutoff: int)
    | Assign(request: int, cluster: int)
    | CleanRead(handler: nat, request: int)
    | CleanGet(handler: nat, ok: bool)
    | CleanCheck(handler: nat, ok: bool)
    | CleanDelete(handler: nat, ok: bool)
    | CleanRelease(handler: nat)
    | Acquire(handler: nat, project: string, params: Params)
    | Insert(handler: nat, ok: bool)
    | Build(handler: nat, ok: bool)
    | MarkReady(handler: nat, ok: bool)
    | MarkFailed(handler: nat, ok: bool)
    | CreateRelease(handler: nat)

  predicate Enabled(s: State, e: Step)
  {
    match e
    case NewRequest(token, _, _, _) =>
      s.t.nextRequest <= MAX_ID && forall r :: r in s.t.requests ==> s.t.requests[r].token != token
    case ClearTimeOut(_) => true
    case Assign(r, c) => Grantable(s.t, r, c)
    case CleanRead(h, r) => h !in s.cleaners && r in s.t.requests
    case CleanGet(h, _) => h in s.cleaners && s.cleaners[h].GotRequest?
    case CleanCheck(h, _) => h in s.cleaners && s.cleaners[h].GotCluster?
    case CleanDelete(h, _) => h in s.cleaners && s.cleaners[h].Checked?
    case CleanRelease(h) => h in s.cleaners && s.cleaners[h].Deleted?
    case Acquire(k, _, _) => k !in s.creators
    case Insert(k, _) => k in s.creators && s.creators[k].Acquired?
    case Build(k, _) => k in s.creators && s.creators[k].Inserted?
    case MarkReady(k, _) => k in s.creators && s.creators[k].Built?
    case MarkFailed(k, _) => k in s.creators && s.creators[k].Broken?
    case CreateRelease(k) => k in s.creators && s.creators[k].Releasing?
  }

  function Cleaning(s: State, h: nat, pc: Cleaner): State
  {
    s.(cleaners := s.cleaners[h := pc])
  }

  function Creating(s: State, k: nat, pc: Creator): State
  {
    s.(creators := s.creators[k := pc])
  }

  function Next(s: State, e: Step): State
    requires Enabled(s, e)
  {
    match e
    case NewRequest(token, time, p, job) => s.(t := InsertedRequest(s.t, token, time, p, job))
    case ClearTimeOut(cutoff) => s.(t := TimedOut(s.t, cutoff))
    case Assign(r, c) => s.(t := Granted(s.t, r, c), granted := s.granted + [r])
    case CleanRead(h, r) => Cleaning(s, h, GotRequest(s.t.requests[r].clusterId))
    case CleanGet(h, ok) =>
      var c := s.cleaners[h].clusterId;
      Cleaning(s, h, if ok && c in s.t.clusters then GotCluster(c, s.t.clusters[c].lease) else CleanerDone)
    case CleanCheck(h, ok) =>
      var c := s.cleaners[h].clusterId;
      Cleaning(s, h, if ok && c in s.t.clusters then Checked(c, s.cleaners[h].lease) else CleanerDone)
    case CleanDelete(h, ok) =>
      var c := s.cleaners[h].clusterId;
      if ok && c in s.t.clusters
      then Cleaning(s, h, Deleted(s.cleaners[h].lease)).(t := Without(s.t, c))
      else Cleaning(s, h, CleanerDone)
    case CleanRelease(h) => Cleaning(s, h, CleanerDone).(released := s.released + [s.cleaners[h].lease])
    case Acquire(k, project, p) => Creating(s, k, Acquired(project, s.nextLease, p)).(nextLease := s.nextLease + 1)
    case Insert(k, ok) =>
      var pc := s.creators[k];
      if ok && s.t.nextCluster <= MAX_ID
      then Creating(s, k, Inserted(s.t.nextCluster, pc.lease))
             .(t := InsertedCluster(s.t, pc.project, pc.lease, pc.params))
      else Creating(s, k, CreatorDone)
    case Build(k, ok) =>
      var pc := s.creators[k];
      Creating(s, k, if ok then Built(pc.id, pc.lease) else Broken(pc.id, pc.lease))
    case MarkReady(k, ok) =>
      Creating(s, k, CreatorDone).(t := if ok then SetCluster(s.t, s.creators[k].id, Ready) else s.t)
    case MarkFailed(k, ok) =>
      var pc := s.creators[k];
      if ok then Creating(s, k, Releasing(pc.lease)).(t := SetCluster(s.t, pc.id, Failed))
      else Creating(s, k, CreatorDone)
    case CreateRelease(k) => Creating(s, k, CreatorDone).(released := s.released + [s.creators[k].lease])
  }

  ghost predicate Runs(s: State, es: seq<Step>)
    decreases |es|
  {
    es == [] || (Enabled(s, es[0]) && Runs(Next(s, es[0]), es[1..]))
  }

  ghost function Exec(s: State, es: seq<Step>): State
    requires Runs(s, es)
    decreases |es|
  {
    if es == [] then s else Exec(Next(s, es[0]), es[1..])
  }

  // ----- Requests and clusters -----------------------------------------------------------

  /** Every In Use row is held by exactly one request, of the same configuration; a row named by a
      request is In Use, and no two requests ever name the same row. */
  ghost predicate HoldInv(t: Tables)
  {
    && IdsInRange(t)
    && (forall r :: r in t.requests ==> -1 <= t.requests[r].clusterId < t.nextCluster)
    && (forall q, r :: q in t.requests && r in t.requests && q != r && t.requests[q].clusterId > 0
          ==> t.requests[q].clusterId != t.requests[r].clusterId)
    && (forall r :: r in t.requests && t.requests[r].clusterId in t.clusters
          ==> t.clusters[t.requests[r].clusterId].status.InUse?
              && t.clusters[t.requests[r].clusterId].params == t.requests[r].params)
    && (forall c :: c in t.clusters && t.clusters[c].status.InUse? ==> exists r :: Holds(t, r, c))
  }

  ghost predicate Holds(t: Tables, r: int, c: int)
  {
    r in t.requests && t.requests[r].clusterId == c
  }

  /** A creator owns the row it inserted until it is Ready or Failed. */
  ghost predicate CreatorInv(s: State)
  {
    && (forall k :: k in s.creators && OwnsRow(s.creators[k]) ==>
          var c := s.creators[k].id;
          c in s.t.clusters && s.t.clusters[c].status.WIP? && s.t.clusters[c].lease == s.creators[k].lease)
    && (forall k, l :: k in s.creators && l in s.creators && k != l
          && OwnsRow(s.creators[k]) && OwnsRow(s.creators[l])
          ==> s.creators[k].id != s.creators[l].id)
  }

  predicate OwnsRow(pc: Creator)
  {
    pc.Inserted? || pc.Broken? || pc.Built?
  }

  predicate HasRow(pc: Cleaner)
  {
    pc.GotCluster? || pc.Checked?
  }

  /** A cleaner works on a row some request names, and remembers its acquisition. */
  ghost predicate CleanerOk(t: Tables, pc: Cleaner)
  {
    && (pc.GotRequest? ==> pc.clusterId <= 0 || Named(t, pc.clusterId))
    && (HasRow(pc) ==>
          && 0 < pc.clusterId < t.nextCluster && Named(t, pc.clusterId)
          && (pc.clusterId in t.clusters ==> t.clusters[pc.clusterId].lease == pc.lease))
  }

  ghost predicate CleanerInv(s: State)
  {
    forall h :: h in s.cleaners ==> CleanerOk(s.t, s.cleaners[h])
  }

  ghost predicate Named(t: Tables, c: int)
  {
    exists r :: Holds(t, r, c)
  }

  lemma HoldRequestInserted(t: Tables, token: string, time: int, p: Params, job: string)
    requires HoldInv(t) && t.nextRequest <= MAX_ID
    ensures HoldInv(InsertedRequest(t, token, time, p, job))
    ensures forall r, c :: Holds(t, r, c) ==> Holds(InsertedRequest(t, token, time, p, job), r, c)
  {
    var u := InsertedRequest(t, token, time, p, job);
    forall c | c in u.clusters && u.clusters[c].status.InUse? ensures exists r :: Holds(u, r, c) {
      var r :| Holds(t, r, c);
      assert Holds(u, r, c);
    }
  }

  lemma HoldTimedOut(t: Tables, cutoff: int)
    requires HoldInv(t)
    ensures HoldInv(TimedOut(t, cutoff))
    ensures forall r, c :: c > 0 && Holds(t, r, c) ==> Holds(TimedOut(t, cutoff), r, c)
  {
    var u := TimedOut(t, cutoff);
    forall c | c in u.clusters && u.clusters[c].status.InUse? ensures exists r :: Holds(u, r, c) {
      var r :| Holds(t, r, c);
      assert Holds(u, r, c);
    }
  }

  lemma HoldGranted(t: Tables, r: int, c: int)
    requires HoldInv(t) && Grantable(t, r, c)
    ensures HoldInv(Granted(t, r, c))
    ensures forall q, d :: d > 0 && Holds(t, q, d) ==> Holds(Granted(t, r, c), q, d)
  {
    var u := Granted(t, r, c);
    GrantableWaits(t, r, c);
    assert Holds(u, r, c);
    forall d | d in u.clusters && d != c && u.clusters[d].status.InUse? ensures exists q :: Holds(u, q, d) {
      var q :| Holds(t, q, d);
      assert Holds(u, q, d);
    }
  }

  lemma HoldClusterInserted(t: Tables, project: string, lease: nat, p: Params)
    requires HoldInv(t) && t.nextCluster <= MAX_ID
    ensures HoldInv(InsertedCluster(t, project, lease, p))
  {
    var u := InsertedCluster(t, project, lease, p);
    forall c | c in u.clusters && u.clusters[c].status.InUse? ensures exists r :: Holds(u, r, c) {
      var r :| Holds(t, r, c);
      assert Holds(u, r, c);
    }
  }

  lemma HoldMarked(t: Tables, c: int, status: Status)
    requires HoldInv(t) && !status.InUse? && c in t.clusters && t.clusters[c].status.WIP?
    ensures HoldInv(SetCluster(t, c, status))
  {
    var u := SetCluster(t, c, status);
    forall d | d in u.clusters && u.clusters[d].status.InUse? ensures exists r :: Holds(u, r, d) {
      var r :| Holds(t, r, d);
      assert Holds(u, r, d);
    }
  }

  lemma HoldWithout(t: Tables, c: int)
    requires HoldInv(t)
    ensures HoldInv(Without(t, c))
  {
    var u := Without(t, c);
    forall d | d in u.clusters && u.clusters[d].status.InUse? ensures exists r :: Holds(u, r, d) {
      var r :| Holds(t, r, d);
      assert Holds(u, r, d);
    }
  }

  lemma HoldStep(s: State, e: Step)
    requires HoldInv(s.t) && CreatorInv(s) && Enabled(s, e)
    ensures HoldInv(Next(s, e).t)
    ensures forall r, c :: c > 0 && Holds(s.t, r, c) ==> Holds(Next(s, e).t, r, c)
  {
    hide HoldInv, Grantable;
    match e
    case NewRequest(token, time, p, job) => HoldRequestInserted(s.t, token, time, p, job);
    case ClearTimeOut(cutoff) => HoldTimedOut(s.t, cutoff);
    case Assign(r, c) => HoldGranted(s.t, r, c);
    case Insert(k, ok) =>
      var pc := s.creators[k];
      if ok && s.t.nextCluster <= MAX_ID { HoldClusterInserted(s.t, pc.project, pc.lease, pc.params); }
    case MarkReady(k, ok) => if ok { HoldMarked(s.t, s.creators[k].id, Ready); }
    case MarkFailed(k, ok) => if ok { HoldMarked(s.t, s.creators[k].id, Failed); }
    case CleanDelete(h, ok) => HoldWithout(s.t, s.cleaners[h].clusterId);
    case _ =>
  }

  lemma NamedStays(s: State, e: Step, c: int)
    requires HoldInv(s.t) && CreatorInv(s) && Enabled(s, e) && c > 0 && Named(s.t, c)
    ensures Named(Next(s, e).t, c)
  {
    HoldStep(s, e);
    var r :| Holds(s.t, r, c);
    assert Holds(Next(s, e).t, r, c);
  }

  lemma NamedIsInUse(t: Tables, c: int)
    requires HoldInv(t) && Named(t, c) && c in t.clusters
    ensures t.clusters[c].status.InUse?
  {
  }

  /** The rows a step leaves keep their acquisition, and new rows get new numbers. */
  lemma RowsStep(s: State, e: Step)
    requires IdsInRange(s.t) && Enabled(s, e)
    ensures var u := Next(s, e).t;
            && s.t.nextCluster <= u.nextCluster
            && forall c :: c in u.clusters ==>
                 c >= s.t.nextCluster || (c in s.t.clusters && u.clusters[c].lease == s.t.clusters[c].lease)
  {
  }

  lemma CleanerOkStays(s: State, e: Step, pc: Cleaner)
    requires HoldInv(s.t) && CreatorInv(s) && Enabled(s, e) && CleanerOk(s.t, pc)
    ensures CleanerOk(Next(s, e).t, pc)
  {
    hide CreatorInv, Next, Named;
    RowsStep(s, e);
    if (pc.GotRequest? && pc.clusterId > 0) || HasRow(pc) { NamedStays(s, e, pc.clusterId); }
  }

  lemma ReadIsOk(s: State, h: nat, r: int)
    requires HoldInv(s.t) && Enabled(s, CleanRead(h, r))
    ensures CleanerOk(s.t, Next(s, CleanRead(h, r)).cleaners[h])
  {
    assert Holds(s.t, r, s.t.requests[r].clusterId);
  }

  lemma CleanerStep(s: State, e: Step)
    requires HoldInv(s.t) && CreatorInv(s) && CleanerInv(s) && Enabled(s, e)
    ensures CleanerInv(Next(s, e))
  {
    hide CreatorInv, CleanerOk;
    var v := Next(s, e);
    forall h | h in v.cleaners ensures CleanerOk(v.t, v.cleaners[h]) {
      CleanerMoves(s, e, h);
      CleanerOkStays(s, e, v.cleaners[h]);
    }
  }

  lemma CleanerMoves(s: State, e: Step, h: nat)
    requires HoldInv(s.t) && CleanerInv(s) && Enabled(s, e) && h in Next(s, e).cleaners
    ensures CleanerOk(s.t, Next(s, e).cleaners[h])
  {
    hide HoldInv, Named;
    if h in s.cleaners { assert CleanerOk(s.t, s.cleaners[h]); }
    if e.CleanRead? { ReadIsOk(s, e.handler, e.request); }
    if e.CleanGet? && e.handler == h { InRange(s.t); }
  }

  lemma InRange(t: Tables)
    requires HoldInv(t)
    ensures IdsInRange(t)
  {
  }

  lemma CreatorStep(s: State, e: Step)
    requires HoldInv(s.t) && CreatorInv(s) && CleanerInv(s) && Enabled(s, e)
    ensures CreatorInv(Next(s, e))
  {
    if e.CleanDelete? {
      var c := s.cleaners[e.handler].clusterId;
      assert CleanerOk(s.t, s.cleaners[e.handler]);
      if c in s.t.clusters { NamedIsInUse(s.t, c); }
    }
    assert IdsInRange(s.t);
    hide HoldInv, CleanerInv, CreatorInv;
    if e.Insert? {
      InsertStep(s, e);
    } else if e.MarkReady? || e.MarkFailed? {
      MarkStep(s, e);
    } else if e.Build? || e.CreateRelease? || e.Acquire? {
      CreatorOwnStep(s, e);
    } else {
      CreatorOtherStep(s, e);
    }
  }

  lemma InsertStep(s: State, e: Step)
    requires IdsInRange(s.t) && CreatorInv(s) && Enabled(s, e) && e.Insert?
    ensures CreatorInv(Next(s, e))
  {
  }

  lemma MarkStep(s: State, e: Step)
    requires CreatorInv(s) && Enabled(s, e) && (e.MarkReady? || e.MarkFailed?)
    ensures CreatorInv(Next(s, e))
  {
  }

  lemma CreatorOwnStep(s: State, e: Step)
    requires CreatorInv(s) && Enabled(s, e) && (e.Build? || e.CreateRelease? || e.Acquire?)
    ensures CreatorInv(Next(s, e))
  {
  }

  /** Grants take Ready rows and cleaners In Use ones, so neither takes a creator's row. */
  lemma CreatorOtherStep(s: State, e: Step)
    requires CreatorInv(s) && Enabled(s, e)
    requires !(e.Insert? || e.Build? || e.MarkReady? || e.MarkFailed? || e.CreateRelease? || e.Acquire?)
    requires e.CleanDelete? && s.cleaners[e.handler].clusterId in s.t.clusters ==>
               s.t.clusters[s.cleaners[e.handler].clusterId].status == InUse
    ensures CreatorInv(Next(s, e))
  {
    hide OwnsRow;
  }

  // ----- Acquisitions --------------------------------------------------------------------

  /** Who may still cause a release of an acquisition. */
  datatype Holder = HRow(id: int) | HCleaner(handler: nat) | HCreator(handler: nat)

  /** A row that is not Failed, a cleaner whose DELETE removed the row, and a creator before its
      INSERT or after it marked its row Failed. */
  ghost predicate Right(s: State, x: Holder, lease: nat)
  {
    match x
    case HRow(c) => c in s.t.clusters && !s.t.clusters[c].status.Failed? && s.t.clusters[c].lease == lease
    case HCleaner(h) => h in s.cleaners && s.cleaners[h] == Deleted(lease)
    case HCreator(k) =>
      k in s.creators && (s.creators[k].Acquired? || s.creators[k].Releasing?) && s.creators[k].lease == lease
  }

  /** Each acquisition is in at most one hand, and in none once it was released. */
  ghost predicate LeaseInv(s: State)
  {
    && (forall x, y, n: nat :: Right(s, x, n) && Right(s, y, n) ==> x == y)
    && (forall x, n: nat :: Right(s, x, n) ==> n < s.nextLease && n !in s.released)
    && (forall n: nat :: n in s.released ==> n < s.nextLease)
    && Distinct(s.released)
  }

  /** A right that moves from one hand to another. */
  lemma RightMoves(s: State, v: State, from: Holder, to: Holder)
    requires LeaseInv(s) && v.released == s.released && v.nextLease == s.nextLease
    requires forall x, n: nat :: Right(v, x, n) ==>
      (x == to && Right(s, from, n)) || (x != to && x != from && Right(s, x, n))
    ensures LeaseInv(v)
  {
  }

  lemma RightsShrink(s: State, v: State)
    requires LeaseInv(s) && v.released == s.released && v.nextLease == s.nextLease
    requires forall x, n: nat :: Right(v, x, n) ==> Right(s, x, n)
    ensures LeaseInv(v)
  {
  }

  lemma RightSpent(s: State, v: State, x: Holder, lease: nat)
    requires LeaseInv(s) && Right(s, x, lease)
    requires v.released == s.released + [lease] && v.nextLease == s.nextLease
    requires forall y, n: nat :: Right(v, y, n) ==> y != x && Right(s, y, n)
    ensures LeaseInv(v)
  {
  }

  lemma RightCreated(s: State, v: State, x: Holder)
    requires LeaseInv(s) && v.released == s.released && v.nextLease == s.nextLease + 1
    requires forall y, n: nat :: Right(v, y, n) ==> (y == x && n == s.nextLease) || (y != x && Right(s, y, n))
    ensures LeaseInv(v)
  {
  }

  ghost predicate PoolInv(s: State)
  {
    HoldInv(s.t) && CreatorInv(s) && CleanerInv(s) && LeaseInv(s)
  }

  lemma InsertMoves(s: State, k: nat, ok: bool)
    requires PoolInv(s) && Enabled(s, Insert(k, ok))
    ensures LeaseInv(Next(s, Insert(k, ok)))
  {
    hide LeaseInv, CleanerInv, CreatorInv;
    var v := Next(s, Insert(k, ok));
    if ok && s.t.nextCluster <= MAX_ID {
      RightMoves(s, v, HCreator(k), HRow(s.t.nextCluster));
    } else {
      RightsShrink(s, v);
    }
  }

  lemma DeleteMoves(s: State, h: nat, ok: bool)
    requires PoolInv(s) && Enabled(s, CleanDelete(h, ok))
    ensures LeaseInv(Next(s, CleanDelete(h, ok)))
  {
    hide LeaseInv, CreatorInv;
    var v := Next(s, CleanDelete(h, ok));
    var c := s.cleaners[h].clusterId;
    if ok && c in s.t.clusters {
      assert CleanerOk(s.t, s.cleaners[h]);
      NamedIsInUse(s.t, c);
      RightMoves(s, v, HRow(c), HCleaner(h));
    } else {
      RightsShrink(s, v);
    }
  }

  lemma FailMoves(s: State, k: nat, ok: bool)
    requires PoolInv(s) && Enabled(s, MarkFailed(k, ok))
    ensures LeaseInv(Next(s, MarkFailed(k, ok)))
  {
    hide LeaseInv, CleanerInv, HoldInv;
    var v := Next(s, MarkFailed(k, ok));
    if ok {
      RightMoves(s, v, HRow(s.creators[k].id), HCreator(k));
    } else {
      RightsShrink(s, v);
    }
  }

  lemma ReadyMoves(s: State, k: nat, ok: bool)
    requires PoolInv(s) && Enabled(s, MarkReady(k, ok))
    ensures LeaseInv(Next(s, MarkReady(k, ok)))
  {
    hide LeaseInv, CleanerInv, HoldInv;
    RightsShrink(s, Next(s, MarkReady(k, ok)));
  }

  lemma AssignMoves(s: State, r: int, c: int)
    requires PoolInv(s) && Enabled(s, Assign(r, c))
    ensures LeaseInv(Next(s, Assign(r, c)))
  {
    hide LeaseInv, CleanerInv, HoldInv, CreatorInv;
    RightsShrink(s, Next(s, Assign(r, c)));
  }

  lemma LeaseStep(s: State, e: Step)
    requires PoolInv(s) && Enabled(s, e)
    ensures LeaseInv(Next(s, e))
  {
    hide LeaseInv, CleanerInv, HoldInv, CreatorInv;
    match e
    case Assign(r, c) => AssignMoves(s, r, c);
    case Insert(k, ok) => InsertMoves(s, k, ok);
    case CleanDelete(h, ok) => DeleteMoves(s, h, ok);
    case MarkFailed(k, ok) => FailMoves(s, k, ok);
    case MarkReady(k, ok) => ReadyMoves(s, k, ok);
    case CleanRelease(h) => RightSpent(s, Next(s, e), HCleaner(h), s.cleaners[h].lease);
    case CreateRelease(k) => RightSpent(s, Next(s, e), HCreator(k), s.creators[k].lease);
    case Acquire(k, _, _) => RightCreated(s, Next(s, e), HCreator(k));
    case _ => RightsShrink(s, Next(s, e));
  }

  // ----- Grants --------------------------------------------------------------------------

  ghost predicate GrantInv(s: State)
  {
    && Distinct(s.granted)
    && (forall r :: r in s.granted <==> r in s.t.requests && s.t.requests[r].clusterId > 0)
  }

  lemma GrantStep(s: State, e: Step)
    requires HoldInv(s.t) && GrantInv(s) && Enabled(s, e)
    ensures GrantInv(Next(s, e))
    ensures forall r :: r in s.t.requests && s.t.requests[r].clusterId != 0 ==>
              r in Next(s, e).t.requests && Next(s, e).t.requests[r] == s.t.requests[r]
  {
    if e.Assign? {
      GrantableWaits(s.t, e.request, e.cluster);
    }
  }

  lemma {:induction false} ExecInv(s: State, es: seq<Step>)
    requires PoolInv(s) && GrantInv(s) && Runs(s, es)
    ensures PoolInv(Exec(s, es)) && GrantInv(Exec(s, es))
    ensures forall r :: r in s.t.requests && s.t.requests[r].clusterId != 0 ==>
              r in Exec(s, es).t.requests && Exec(s, es).t.requests[r] == s.t.requests[r]
    decreases |es|
  {
    hide HoldInv, CreatorInv, CleanerInv, LeaseInv, GrantInv, Next, Enabled;
    if es != [] {
      HoldStep(s, es[0]);
      CreatorStep(s, es[0]);
      CleanerStep(s, es[0]);
      LeaseStep(s, es[0]);
      GrantStep(s, es[0]);
      ExecInv(Next(s, es[0]), es[1..]);
    }
  }

  lemma EmptyInv()
    ensures PoolInv(EMPTY) && GrantInv(EMPTY)
  {
  }

  // ----- Main results --------------------------------------------------------------------

  /** In every run: an In Use row is held by exactly one request, of its configuration; no request
      is granted twice; and the requests granted are exactly those that name a cluster. */
  lemma GrantsAreExclusive(es: seq<Step>)
    requires Runs(EMPTY, es)
    ensures var s := Exec(EMPTY, es);
            && (forall c :: c in s.t.clusters && s.t.clusters[c].status.InUse? ==>
                  exists r :: Holds(s.t, r, c) && s.t.requests[r].params == s.t.clusters[c].params
                              && forall q :: Holds(s.t, q, c) ==> q == r)
            && Distinct(s.granted)
            && (forall r :: r in s.granted <==> r in s.t.requests && s.t.requests[r].clusterId > 0)
  {
    EmptyInv();
    ExecInv(EMPTY, es);
    HeldOnce(Exec(EMPTY, es).t);
  }

  lemma HeldOnce(t: Tables)
    requires HoldInv(t)
    ensures forall c :: c in t.clusters && t.clusters[c].status.InUse? ==>
              exists r :: Holds(t, r, c) && t.requests[r].params == t.clusters[c].params
                          && forall q :: Holds(t, q, c) ==> q == r
  {
    forall c | c in t.clusters && t.clusters[c].status.InUse?
      ensures exists r :: Holds(t, r, c) && t.requests[r].params == t.clusters[c].params
                          && forall q :: Holds(t, q, c) ==> q == r
    {
      var r :| Holds(t, r, c);
    }
  }

  /** A request that was granted or timed out stays as it is in every continuation, so a timed-out
      request is never granted and a grant is never taken over. */
  lemma DecidedStaysDecided(es: seq<Step>, more: seq<Step>, r: int)
    requires Runs(EMPTY, es) && Runs(Exec(EMPTY, es), more)
    requires r in Exec(EMPTY, es).t.requests && Exec(EMPTY, es).t.requests[r].clusterId != 0
    ensures var s := Exec(EMPTY, es);
            var u := Exec(s, more);
            && r in u.t.requests && u.t.requests[r] == s.t.requests[r]
            && (s.t.requests[r].clusterId < 0 ==> r !in u.granted)
  {
    EmptyInv();
    ExecInv(EMPTY, es);
    ExecInv(Exec(EMPTY, es), more);
  }

  /** In every interleaving each acquisition is released at most once, and never while a row that
      could still be handed out, or is in use, stands for it. */
  lemma ReleasedAtMostOnce(es: seq<Step>)
    requires Runs(EMPTY, es)
    ensures var s := Exec(EMPTY, es);
            && Distinct(s.released)
            && (forall n: nat :: n in s.released ==> n < s.nextLease)
            && (forall c :: c in s.t.clusters && !s.t.clusters[c].status.Failed? ==>
                  s.t.clusters[c].lease !in s.released)
            && (forall c, d :: c in s.t.clusters && d in s.t.clusters && c != d
                  && !s.t.clusters[c].status.Failed? && !s.t.clusters[d].status.Failed?
                  ==> s.t.clusters[c].lease != s.t.clusters[d].lease)
  {
    EmptyInv();
    ExecInv(EMPTY, es);
    RowsHaveRights(Exec(EMPTY, es));
  }

  lemma RowsHaveRights(s: State)
    requires LeaseInv(s)
    ensures forall c :: c in s.t.clusters && !s.t.clusters[c].status.Failed? ==>
              s.t.clusters[c].lease !in s.released
    ensures forall c, d :: c in s.t.clusters && d in s.t.clusters && c != d
              && !s.t.clusters[c].status.Failed? && !s.t.clusters[d].status.Failed?
              ==> s.t.clusters[c].lease != s.t.clusters[d].lease
  {
    forall c | c in s.t.clusters && !s.t.clusters[c].status.Failed?
      ensures Right(s, HRow(c), s.t.clusters[c].lease)
    {
    }
  }

  // ----- Fairness of the ranking ---------------------------------------------------------

  predicate Waits(t: Tables, q: int)
  {
    q in t.requests && t.requests[q].clusterId == 0
  }

  /** The rank of `q` is within the number of Ready clusters of its configuration. */
  predicate Entitled(t: Tables, q: int)
    requires q in t.requests
  {
    Rank(t, q) <= |WithStatus(t, t.requests[q].params, Ready)|
  }

  /** Some cluster can be handed out to `q` now. */
  ghost predicate Servable(t: Tables, q: int)
  {
    exists d :: Grantable(t, q, d)
  }

  /** A waiting request is entitled exactly if it can be served: a rank is at least one, so there is a
      Ready cluster where it is reached. */
  lemma EntitledIff(t: Tables, q: int)
    requires IdsInRange(t) && q in t.requests && Waits(t, q)
    ensures Entitled(t, q) <==> Servable(t, q)
  {
    var ready := WithStatus(t, t.requests[q].params, Ready);
    if Entitled(t, q) {
      if d :| d in ready {
        assert Grantable(t, q, d);
      } else {
        NothingIn(ready);
      }
    }
  }

  lemma ReadyAfterGrant(t: Tables, r: int, c: int, p: Params)
    requires IdsInRange(t) && Grantable(t, r, c)
    ensures |WithStatus(Granted(t, r, c), p, Ready)|
         == |WithStatus(t, p, Ready)| - if p == t.requests[r].params then 1 else 0
  {
    var before, after := WithStatus(t, p, Ready), WithStatus(Granted(t, r, c), p, Ready);
    if p == t.requests[r].params {
      assert after == before - {c};
    } else {
      assert after == before;
    }
  }

  lemma AheadAfterGrant(t: Tables, r: int, c: int, q: int)
    requires IdsInRange(t) && Grantable(t, r, c) && Waits(t, q) && q != r
    ensures Ahead(Granted(t, r, c), q) == Ahead(t, q) - {r}
  {
    GrantableWaits(t, r, c);
  }

  /** What a grant does to another waiting request of the same configuration, in all cases: it
      stays entitled exactly if its rank was below the number of Ready clusters, or the request
      served was ahead of it and its rank was within that number. */
  lemma EntitledAfterGrantIff(t: Tables, r: int, c: int, q: int)
    requires IdsInRange(t) && Grantable(t, r, c) && Waits(t, q) && q != r
    requires t.requests[q].params == t.requests[r].params
    ensures var ready := |WithStatus(t, t.requests[q].params, Ready)|;
            Entitled(Granted(t, r, c), q) <==>
            if t.requests[r].time < t.requests[q].time then Rank(t, q) <= ready else Rank(t, q) < ready
  {
    ReadyAfterGrant(t, r, c, t.requests[q].params);
    AheadAfterGrant(t, r, c, q);
    GrantableWaits(t, r, c);
    if t.requests[r].time < t.requests[q].time {
      assert r in Ahead(t, q);
    } else {
      assert r !in Ahead(t, q);
    }
  }

  /** No overtaking: when a younger request is served, every strictly older one of the same
      configuration can still be served at once, with a cluster that is there. */
  lemma NoOvertaking(t: Tables, r: int, c: int, q: int)
    requires IdsInRange(t) && Grantable(t, r, c) && Waits(t, q)
    requires t.requests[q].params == t.requests[r].params && t.requests[q].time < t.requests[r].time
    ensures Waits(Granted(t, r, c), q) && Entitled(Granted(t, r, c), q)
    ensures exists d :: Grantable(Granted(t, r, c), q, d)
  {
    GrantableWaits(t, r, c);
    assert q in Ahead(t, r) && q !in Ahead(t, q) && Ahead(t, q) <= Ahead(t, r) - {q};
    SubsetSize(Ahead(t, q), Ahead(t, r) - {q});
    EntitledAfterGrantIff(t, r, c, q);
    EntitledIff(Granted(t, r, c), q);
  }

  /** Among requests of the same instant the rank does not decide: with one Ready cluster either is
      entitled, and serving one takes it from the other. */
  lemma EqualTimesCompete(t: Tables, r: int, c: int, q: int)
    requires IdsInRange(t) && Grantable(t, r, c) && Waits(t, q) && q != r
    requires t.requests[q].params == t.requests[r].params && t.requests[q].time == t.requests[r].time
    ensures Entitled(t, q)
    ensures Entitled(Granted(t, r, c), q) <==> Rank(t, r) < |WithStatus(t, t.requests[r].params, Ready)|
  {
    GrantableWaits(t, r, c);
    assert Ahead(t, q) == Ahead(t, r);
    EntitledAfterGrantIff(t, r, c, q);
  }

  /** The two events that can take an entitlement away: an older request arrives late, or one of
      the very same instant is served. */
  predicate Competes(t: Tables, e: Step, q: int)
    requires q in t.requests
  {
    match e
    case NewRequest(_, time, p, _) => p == t.requests[q].params && time < t.requests[q].time
    case Assign(r, _) =>
      && r in t.requests && r != q
      && t.requests[r].params == t.requests[q].params && t.requests[r].time == t.requests[q].time
    case _ => false
  }

  /** Nothing but a grant makes Ready clusters disappear or lets others get ahead. */
  lemma OtherSteps(s: State, e: Step, q: int)
    requires PoolInv(s) && Enabled(s, e) && Waits(s.t, q) && !e.Assign? && !Competes(s.t, e, q)
    requires Waits(Next(s, e).t, q)
    ensures Ahead(Next(s, e).t, q) <= Ahead(s.t, q)
    ensures WithStatus(s.t, s.t.requests[q].params, Ready) <= WithStatus(Next(s, e).t, s.t.requests[q].params, Ready)
    ensures Next(s, e).t.requests[q] == s.t.requests[q]
  {
    hide LeaseInv;
    if e.ClearTimeOut? {
      forall r | r in Ahead(Next(s, e).t, q) ensures r in Ahead(s.t, q) {
        assert Next(s, e).t.requests[r] == Expired(s.t.requests[r], e.cutoff);
      }
    }
    if e.CleanDelete? {
      assert CleanerOk(s.t, s.cleaners[e.handler]);
      if s.cleaners[e.handler].clusterId in s.t.clusters {
        NamedIsInUse(s.t, s.cleaners[e.handler].clusterId);
      }
    }
  }

  lemma OtherGrants(t: Tables, r: int, c: int, q: int)
    requires IdsInRange(t) && Grantable(t, r, c) && Waits(t, q) && q != r && Entitled(t, q)
    requires t.requests[r].params != t.requests[q].params
    ensures Entitled(Granted(t, r, c), q)
  {
    ReadyAfterGrant(t, r, c, t.requests[q].params);
    AheadAfterGrant(t, r, c, q);
    assert r !in Ahead(t, q);
  }

  lemma EntitledStep(s: State, e: Step, q: int)
    requires PoolInv(s) && Enabled(s, e) && Waits(s.t, q) && Entitled(s.t, q) && !Competes(s.t, e, q)
    ensures q in Next(s, e).t.requests
    ensures Waits(Next(s, e).t, q) ==> Entitled(Next(s, e).t, q)
  {
    hide CreatorInv, CleanerInv, LeaseInv;
    if Waits(Next(s, e).t, q) {
      match e
      case Assign(r, c) =>
        GrantableWaits(s.t, r, c);
        if s.t.requests[r].params != s.t.requests[q].params {
          OtherGrants(s.t, r, c, q);
        } else if s.t.requests[q].time < s.t.requests[r].time {
          NoOvertaking(s.t, r, c, q);
        } else {
          EntitledAfterGrantIff(s.t, r, c, q);
        }
      case _ =>
        var p := s.t.requests[q].params;
        OtherSteps(s, e, q);
        SubsetSize(Ahead(Next(s, e).t, q), Ahead(s.t, q));
        SubsetSize(WithStatus(s.t, p, Ready), WithStatus(Next(s, e).t, p, Ready));
    }
  }

  ghost predicate NoCompetition(s: State, es: seq<Step>, q: int)
    requires Runs(s, es) && q in s.t.requests
    decreases |es|
  {
    || es == []
    || (!Competes(s.t, es[0], q)
        && (q in Next(s, es[0]).t.requests ==> NoCompetition(Next(s, es[0]), es[1..], q)))
  }

  lemma {:induction false} EntitledFrom(s: State, es: seq<Step>, q: int)
    requires PoolInv(s) && GrantInv(s) && Runs(s, es)
    requires Waits(s.t, q) && Entitled(s.t, q) && NoCompetition(s, es, q)
    ensures q in Exec(s, es).t.requests
    ensures Waits(Exec(s, es).t, q) ==> Entitled(Exec(s, es).t, q)
    decreases |es|
  {
    hide PoolInv, GrantInv, Next, Enabled, Entitled;
    if es != [] {
      EntitledStep(s, es[0], q);
      ExecInv(s, [es[0]]);
      var v := Next(s, es[0]);
      assert Exec(s, [es[0]]) == v;
      if Waits(v.t, q) {
        EntitledFrom(v, es[1..], q);
      } else {
        ExecInv(v, es[1..]);
      }
    }
  }

  /** Over whole runs: once a request may be served it may be served at every later moment until it
      is served or times out, whatever other handlers do. */
  lemma ServableUntilServed(es: seq<Step>, more: seq<Step>, q: int)
    requires Runs(EMPTY, es) && Runs(Exec(EMPTY, es), more)
    requires Waits(Exec(EMPTY, es).t, q) && Servable(Exec(EMPTY, es).t, q)
    requires NoCompetition(Exec(EMPTY, es), more, q)
    ensures var u := Exec(Exec(EMPTY, es), more);
            q in u.t.requests && (Waits(u.t, q) ==> Servable(u.t, q))
  {
    hide Runs, Exec, Entitled, Servable, NoCompetition, GrantInv, CreatorInv, CleanerInv, LeaseInv;
    EmptyInv();
    ExecInv(EMPTY, es);
    InRange(Exec(EMPTY, es).t);
    EntitledIff(Exec(EMPTY, es).t, q);
    EntitledFrom(Exec(EMPTY, es), more, q);
    ExecInv(Exec(EMPTY, es), more);
    var u := Exec(Exec(EMPTY, es), more);
    InRange(u.t);
    if Waits(u.t, q) { EntitledIff(u.t, q); }
  }

  // ----- No project is forgotten ---------------------------------------------------------

  /** The acquisitions a step forgets: that of a creator whose INSERT fails. */
  function Forgets(s: State, e: Step): set<nat>
  {
    match e
    case Insert(k, ok) =>
      if k in s.creators && s.creators[k].Acquired? && !(ok && s.t.nextCluster <= MAX_ID)
      then {s.creators[k].lease} else {}
    case _ => {}
  }

  ghost function Forgotten(s: State, es: seq<Step>): set<nat>
    requires Runs(s, es)
    decreases |es|
  {
    if es == [] then {} else Forgets(s, es[0]) + Forgotten(Next(s, es[0]), es[1..])
  }

  /** Every acquisition so far was released, is forgotten, or is in somebody's hand. */
  ghost predicate Accounted(s: State, forgotten: set<nat>)
  {
    forall n: nat :: n < s.nextLease ==> n in s.released || n in forgotten || exists x :: Right(s, x, n)
  }

  lemma HandMoves(s: State, e: Step, x: Holder, n: nat) returns (y: Holder)
    requires HoldInv(s.t) && CreatorInv(s) && CleanerInv(s) && Enabled(s, e) && Right(s, x, n)
    ensures Right(Next(s, e), y, n) || n in Next(s, e).released || n in Forgets(s, e)
  {
    assert IdsInRange(s.t);
    if e.CleanDelete? { assert CleanerOk(s.t, s.cleaners[e.handler]); }
    hide HoldInv, CleanerInv, Right;
    match x
    case HRow(c) => y := RowRightMoves(s, e, c, n);
    case HCleaner(h) => y := CleanerRightMoves(s, e, h, n);
    case HCreator(k) => y := CreatorRightMoves(s, e, k, n);
  }

  lemma RowRightMoves(s: State, e: Step, c: int, n: nat) returns (y: Holder)
    requires IdsInRange(s.t) && CreatorInv(s) && Enabled(s, e) && Right(s, HRow(c), n)
    requires e.CleanDelete? ==> CleanerOk(s.t, s.cleaners[e.handler])
    ensures Right(Next(s, e), y, n)
  {
    y := HRow(c);
    match e
    case CleanDelete(h, ok) => if c == s.cleaners[h].clusterId && ok { y := HCleaner(h); }
    case MarkFailed(k, ok) => if c == s.creators[k].id && ok { y := HCreator(k); }
    case _ =>
  }

  lemma CleanerRightMoves(s: State, e: Step, h: nat, n: nat) returns (y: Holder)
    requires Enabled(s, e) && Right(s, HCleaner(h), n)
    ensures Right(Next(s, e), y, n) || n in Next(s, e).released
  {
    y := HCleaner(h);
  }

  lemma CreatorRightMoves(s: State, e: Step, k: nat, n: nat) returns (y: Holder)
    requires IdsInRange(s.t) && Enabled(s, e) && Right(s, HCreator(k), n)
    ensures Right(Next(s, e), y, n) || n in Next(s, e).released || n in Forgets(s, e)
  {
    y := if e.Insert? && e.handler == k then HRow(s.t.nextCluster) else HCreator(k);
  }

  lemma AccountedStep(s: State, e: Step, forgotten: set<nat>)
    requires HoldInv(s.t) && CreatorInv(s) && CleanerInv(s) && Enabled(s, e) && Accounted(s, forgotten)
    ensures Accounted(Next(s, e), forgotten + Forgets(s, e))
  {
    hide HoldInv, CreatorInv, CleanerInv, Right, Forgets;
    var v := Next(s, e);
    forall n: nat | n < v.nextLease
      ensures n in v.released || n in forgotten + Forgets(s, e) || exists x :: Right(v, x, n)
    {
      if n == s.nextLease {
        NewRight(s, e);
      } else if x :| Right(s, x, n) {
        var y := HandMoves(s, e, x, n);
      }
    }
  }

  lemma NewRight(s: State, e: Step)
    requires Enabled(s, e) && Next(s, e).nextLease > s.nextLease
    ensures exists x :: Right(Next(s, e), x, s.nextLease)
  {
    assert Right(Next(s, e), HCreator(e.handler), s.nextLease);
  }

  lemma {:induction false} AccountedFrom(s: State, es: seq<Step>, forgotten: set<nat>)
    requires PoolInv(s) && GrantInv(s) && Runs(s, es) && Accounted(s, forgotten)
    ensures Accounted(Exec(s, es), forgotten + Forgotten(s, es))
    decreases |es|
  {
    hide HoldInv, CreatorInv, CleanerInv, LeaseInv, GrantInv, Next, Enabled, Accounted, Forgets;
    if es == [] {
      assert forgotten + {} == forgotten;
    } else {
      var v := Next(s, es[0]);
      AccountedStep(s, es[0], forgotten);
      HoldStep(s, es[0]);
      CreatorStep(s, es[0]);
      CleanerStep(s, es[0]);
      LeaseStep(s, es[0]);
      GrantStep(s, es[0]);
      AccountedFrom(v, es[1..], forgotten + Forgets(s, es[0]));
      assert forgotten + Forgets(s, es[0]) + Forgotten(v, es[1..]) == forgotten + Forgotten(s, es);
    }
  }

  /** All handlers have returned. */
  predicate AtRest(s: State)
  {
    && (forall h :: h in s.cleaners ==> s.cleaners[h] == CleanerDone)
    && (forall k :: k in s.creators ==> s.creators[k] == CreatorDone)
  }

  /** No project is forgotten: in every run, once all handlers have returned, each acquired project was
      released or stands behind a row that is WIP, Ready or In Use, except those whose INSERT failed. A
      failed creation whose row could be marked has given its project back. */
  lemma NoProjectForgotten(es: seq<Step>, n: nat)
    requires Runs(EMPTY, es) && AtRest(Exec(EMPTY, es))
    requires n < Exec(EMPTY, es).nextLease && n !in Forgotten(EMPTY, es)
    ensures var s := Exec(EMPTY, es);
      n in s.released || exists c :: c in s.t.clusters && s.t.clusters[c].lease == n && s.t.clusters[c].status != Failed
  {
    EmptyInv();
    AccountedFrom(EMPTY, es, {});
    var s := Exec(EMPTY, es);
    assert {} + Forgotten(EMPTY, es) == Forgotten(EMPTY, es);
    if x :| Right(s, x, n) {
      match x
      case HRow(c) => assert c in s.t.clusters && s.t.clusters[c].lease == n && s.t.clusters[c].status != Failed;
      case _ =>
    }
  }

  // ----- The way of one cluster ----------------------------------------------------------

  lemma Chain(s: State, e: Step, es: seq<Step>)
    requires Enabled(s, e) && Runs(Next(s, e), es)
    ensures Runs(s, [e] + es) && Exec(s, [e] + es) == Exec(Next(s, e), es)
  {
    hide Enabled, Next;
    assert ([e] + es)[1..] == es;
  }

  lemma NoMore(s: State)
    ensures Runs(s, []) && Exec(s, []) == s
  {
  }

  /** From an empty pool: a cluster is created for a configuration, a request for it waits and is
      served with it. */
  lemma ServedRun(project: string, p: Params, token: string, time: int, job: string) returns (es: seq<Step>)
    ensures Runs(EMPTY, es)
    ensures var s := Exec(EMPTY, es);
      && s.t.clusters == map[1 := Cluster(project, 0, InUse, p)]
      && s.t.requests == map[1 := Request(token, time, p, job, 1)]
      && s.granted == [1] && s.released == []
  {
    hide Runs, Exec;
    var a := Next(EMPTY, Acquire(0, project, p));
    var b := Next(a, Insert(0, true));
    var c := Next(b, Build(0, true));
    var d := Next(c, MarkReady(0, true));
    var e := Next(d, NewRequest(token, time, p, job));
    assert e.t.clusters == map[1 := Cluster(project, 0, Ready, p)];
    assert e.t.requests == map[1 := Request(token, time, p, job, 0)];
    OnlyOne(e.t, p);
    var f := Next(e, Assign(1, 1));
    NoMore(f);
    Chain(e, Assign(1, 1), []);
    es := [Assign(1, 1)] + [];
    Chain(d, NewRequest(token, time, p, job), es);
    es := [NewRequest(token, time, p, job)] + es;
    Chain(c, MarkReady(0, true), es);
    es := [MarkReady(0, true)] + es;
    Chain(b, Build(0, true), es);
    es := [Build(0, true)] + es;
    Chain(a, Insert(0, true), es);
    es := [Insert(0, true)] + es;
    Chain(EMPTY, Acquire(0, project, p), es);
    es := [Acquire(0, project, p)] + es;
  }

  lemma OnlyOne(t: Tables, p: Params)
    requires t.clusters.Keys == {1} && t.requests.Keys == {1} && IdsInRange(t)
    requires t.clusters[1].status == Ready && t.clusters[1].params == p
    requires t.requests[1].params == p && t.requests[1].clusterId == 0
    ensures Grantable(t, 1, 1)
  {
    GrantableIff(t, 1, 1);
    assert (set q | q in t.requests && t.requests[q].clusterId == 0 && t.requests[q].params == p
                    && t.requests[q].time < t.requests[1].time) == {};
    assert (set d | d in t.clusters && t.clusters[d].status == Ready && t.clusters[d].params == p) == {1};
  }

  /** From any state in which a request holds a cluster: a handler that hands it back, undisturbed, leaves
      the row deleted and the project released. */
  lemma HandBack(s: State, h: nat, r: int) returns (es: seq<Step>)
    requires h !in s.cleaners && r in s.t.requests && s.t.requests[r].clusterId in s.t.clusters
    ensures Runs(s, es)
    ensures var c := s.t.requests[r].clusterId;
      && Exec(s, es).t.clusters == s.t.clusters - {c}
      && Exec(s, es).released == s.released + [s.t.clusters[c].lease]
  {
    hide Runs, Exec;
    var a := Next(s, CleanRead(h, r));
    var b := Next(a, CleanGet(h, true));
    var c := Next(b, CleanCheck(h, true));
    var d := Next(c, CleanDelete(h, true));
    NoMore(Next(d, CleanRelease(h)));
    Chain(d, CleanRelease(h), []);
    es := [CleanRelease(h)] + [];
    Chain(c, CleanDelete(h, true), es);
    es := [CleanDelete(h, true)] + es;
    Chain(b, CleanCheck(h, true), es);
    es := [CleanCheck(h, true)] + es;
    Chain(a, CleanGet(h, true), es);
    es := [CleanGet(h, true)] + es;
    Chain(s, CleanRead(h, r), es);
    es := [CleanRead(h, r)] + es;
  }
}
