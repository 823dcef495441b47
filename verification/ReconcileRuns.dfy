/**
 What becomes of one existing cluster in the course of a run: when it is deleted, when it stays, and that a
 run without errors exists.
 */
module ReconcileRuns {
  import opened Text
  import opened Location
  import opened Reconcile

  /** The states of a run, one after the other. */
  ghost predicate Run(ss: seq<State>)
  {
    ss != [] && forall j :: 0 < j < |ss| ==> Next(ss[j - 1], ss[j])
  }

  /** The states a plan is asked about, busy clusters among them. */
  ghost predicate Ready(w: World, repo: string, p: Plan)
  {
    && Lists(w, repo, p.list) && Remaining(p)
    && (forall n :: n in p.configs ==> Belongs(n, repo) && WellFormed(p.configs[n].location))
    && (forall i :: 0 <= i < |p.list| ==> WellFormed(p.list[i].location))
  }

  ghost predicate RunOf(w: World, repo: string, p: Plan, ss: seq<State>)
  {
    Ready(w, repo, p) && Run(ss) && ss[0] == State(w, Handlers(p))
  }

  /** Another job is creating or deleting the cluster. */
  predicate Taken(c: Cluster)
  {
    c.info.status == Provisioning || c.info.status == Stopping
  }

  /** The first of its name, and as configured. */
  predicate UpToDate(p: Plan, i: nat)
    requires i < |p.list|
  {
    var c := p.list[i];
    && (forall k :: 0 <= k < i ==> p.list[k].name != c.name)
    && c.name in p.configs && AsConfigured(c, p.configs[c.name])
  }

  /** Clusters of other jobs are left alone, and reconciling leaves alone what is up to date. */
  predicate Stays(p: Plan, i: nat)
    requires i < |p.list|
  {
    Taken(p.list[i]) || (p.retain && UpToDate(p, i))
  }

  function KeyOf(c: Cluster): Key
  {
    Key(c.name, c.location)
  }

  // ----- How a handler starts ------------------------------------------------------------

  lemma StartIs(p: Plan, i: nat)
    requires forall k :: 0 <= k < |p.names| ==> p.names[k] in p.configs
    requires i < |p.list| && WellFormed(p.list[i].location)
    ensures |Handlers(p)| > i && Handlers(p)[i].step == if Stays(p, i) then Done else Deleting(0)
  {
    hide WellFormed, Resolve, Regional, AsConfigured, Unchanged;
    var c := p.list[i];
    var config := Assigned(p.list, p.configs, i);
    UnchangedNone(c, config);
    if config.Some? { UnchangedIff(c, config.value); }
  }

  /** No earlier cluster of that name is to be created here. */
  predicate NotLate(p: Plan, i: nat)
    requires i < |p.list|
  {
    var c := p.list[i];
    forall k :: 0 <= k < i && p.list[k].name == c.name && c.name in p.configs ==>
      p.configs[c.name].location != c.location
  }

  lemma OnlyOwnHandler(w: World, repo: string, p: Plan, i: nat, j: nat)
    requires Ready(w, repo, p) && i < |p.list| && NotLate(p, i)
    requires j < |p.list| + |p.names| && i != j
    ensures var h := Handlers(p)[j]; Straight(h) && !Touches(h, KeyOf(p.list[i]))
  {
    hide WellFormed, Resolve, Handlers, Belongs;
    TouchesIs(p, j);
    if j >= |p.list| { assert p.names[j - |p.list|] in p.names; }
  }

  // ----- What stays ----------------------------------------------------------------------

  /** Handler `i` is done, and nobody else touches the cluster. */
  ghost predicate Left(s: State, i: nat, k: Key)
  {
    && i < |s.handlers| && s.handlers[i].step == Done
    && forall j :: 0 <= j < |s.handlers| && j != i ==> Straight(s.handlers[j]) && !Touches(s.handlers[j], k)
  }

  lemma LeftStep(s: State, t: State, i: nat, k: Key)
    requires Left(s, i, k) && Next(s, t)
    ensures Left(t, i, k) && SameAt(s.world, t.world, k)
  {
    hide Straight, Touches, SameAt;
    var j: nat :| StepOf(s, t, j);
    var h, h' := s.handlers[j], t.handlers[j];
    DoneStays(h, s.world, h', t.world);
    StepFrame(h, s.world, h', t.world);
    TouchesSame(h, h');
    StraightSame(h, h');
  }

  lemma DoneStays(h: Handler, w: World, h': Handler, w': World)
    requires HandlerStep(h, w, h', w')
    ensures h.step != Done && h.step != Failed
  {
  }

  lemma StraightSame(h: Handler, h': Handler)
    requires h' == h.(step := h'.step)
    ensures Straight(h) <==> Straight(h')
  {
    hide Resolve;
  }

  lemma {:induction false} LeftAlong(ss: seq<State>, i: nat, k: Key, j: nat)
    requires Run(ss) && Left(ss[0], i, k) && j < |ss|
    ensures Left(ss[j], i, k) && SameAt(ss[0].world, ss[j].world, k)
  {
    hide Left, Next;
    if j > 0 {
      LeftAlong(ss, i, k, j - 1);
      LeftStep(ss[j - 1], ss[j], i, k);
      SameTwice(ss[0].world, ss[j - 1].world, ss[j].world, k);
    }
  }

  lemma StartLeft(w: World, repo: string, p: Plan, i: nat)
    requires Ready(w, repo, p) && i < |p.list| && Stays(p, i) && NotLate(p, i)
    ensures Left(State(w, Handlers(p)), i, KeyOf(p.list[i]))
  {
    StartIs(p, i);
    HandlersLength(p);
    hide Handlers, Stays, NotLate, Straight, Touches, WellFormed;
    forall j | 0 <= j < |p.list| + |p.names| && j != i
      ensures Straight(Handlers(p)[j]) && !Touches(Handlers(p)[j], KeyOf(p.list[i]))
    {
      OnlyOwnHandler(w, repo, p, i, j);
    }
  }

  /** However calls fail: what is up to date, and what another job is busy with, is there unchanged in every
      state of every run. */
  lemma KeptThroughout(w: World, repo: string, p: Plan, ss: seq<State>, i: nat, j: nat)
    requires RunOf(w, repo, p, ss) && i < |p.list| && j < |ss|
    requires Stays(p, i) && NotLate(p, i)
    ensures SameAt(w, ss[j].world, KeyOf(p.list[i])) && KeyOf(p.list[i]) in ss[j].world
  {
    hide Handlers, Run, Stays, NotLate, Remaining, WellFormed;
    StartLeft(w, repo, p, i);
    LeftAlong(ss, i, KeyOf(p.list[i]), j);
  }

  /** A cluster that is up to date is the first of its name, so none before it can be in its way. */
  lemma UpToDateNotLate(p: Plan, i: nat)
    requires i < |p.list| && UpToDate(p, i)
    ensures NotLate(p, i)
  {
    hide AsConfigured;
  }

  // ----- What is deleted -----------------------------------------------------------------

  lemma DeletingStep(h: Handler, w: World, h': Handler, w': World)
    requires h.step.Deleting? && HandlerStep(h, w, h', w')
    ensures h'.step.Deleting? || h'.step == Failed || OldKey(h) !in w'
  {
    hide Resolve, SameElsewhere;
  }

  /** Up to the state `j`, handler `i` has not left its deletion without deleting. */
  ghost predicate Pending(ss: seq<State>, i: nat, k: Key, j: nat)
    requires j < |ss|
  {
    && i < |ss[j].handlers|
    && var h := ss[j].handlers[i];
    || (h.step.Deleting? && h.at.Some? && OldKey(h) == k)
    || h.step == Failed
    || exists m :: 0 <= m <= j && k !in ss[m].world
  }

  lemma PendingStep(ss: seq<State>, i: nat, k: Key, j: nat)
    requires 0 < j < |ss| && Next(ss[j - 1], ss[j]) && Pending(ss, i, k, j - 1)
    ensures Pending(ss, i, k, j)
  {
    hide HandlerStep, Resolve;
    var s, t := ss[j - 1], ss[j];
    var a: nat :| StepOf(s, t, a);
    var h, h' := s.handlers[a], t.handlers[a];
    DoneStays(h, s.world, h', t.world);
    if a == i && h.step.Deleting? {
      DeletingStep(h, s.world, h', t.world);
      DeletingSame(h, s.world, h', t.world);
    }
  }

  lemma DeletingSame(h: Handler, w: World, h': Handler, w': World)
    requires HandlerStep(h, w, h', w')
    ensures h'.name == h.name && h'.at == h.at
  {
    hide Resolve;
  }

  lemma {:induction false} PendingAlong(ss: seq<State>, i: nat, k: Key, j: nat)
    requires Run(ss) && j < |ss| && Pending(ss, i, k, 0)
    ensures Pending(ss, i, k, j)
  {
    hide Pending, Next;
    if j > 0 {
      PendingAlong(ss, i, k, j - 1);
      PendingStep(ss, i, k, j);
    }
  }

  /** If no error is returned, every other cluster was deleted on the way. */
  lemma DeletedOnTheWay(w: World, repo: string, p: Plan, ss: seq<State>, i: nat)
    requires RunOf(w, repo, p, ss) && AllDone(ss[|ss| - 1])
    requires i < |p.list| && !Stays(p, i)
    ensures exists j :: 0 <= j < |ss| && KeyOf(p.list[i]) !in ss[j].world
  {
    StartIs(p, i);
    TouchesIs(p, i);
    hide Handlers, Run, Stays, Remaining, WellFormed, Resolve, Belongs;
    PendingAlong(ss, i, KeyOf(p.list[i]), |ss| - 1);
  }

  /** The exact clusters a run without errors deletes, whether they are created again or not. */
  lemma DeletedIff(w: World, repo: string, p: Plan, ss: seq<State>, i: nat)
    requires RunOf(w, repo, p, ss) && AllDone(ss[|ss| - 1])
    requires i < |p.list| && NotLate(p, i)
    ensures (exists j :: 0 <= j < |ss| && KeyOf(p.list[i]) !in ss[j].world) <==> !Stays(p, i)
  {
    hide RunOf, AllDone, NotLate, Stays;
    if Stays(p, i) {
      forall j | 0 <= j < |ss| ensures KeyOf(p.list[i]) in ss[j].world {
        KeptThroughout(w, repo, p, ss, i, j);
      }
    } else {
      DeletedOnTheWay(w, repo, p, ss, i);
    }
  }

  /** `RecreateClusters` deletes every cluster that no other job is busy with, unchanged or not. */
  lemma Recreated(w: World, repo: string, p: Plan, ss: seq<State>, i: nat)
    requires RunOf(w, repo, p, ss) && AllDone(ss[|ss| - 1]) && !p.retain
    requires i < |p.list| && p.list[i].info.status != Provisioning && p.list[i].info.status != Stopping
    ensures exists j :: 0 <= j < |ss| && KeyOf(p.list[i]) !in ss[j].world
  {
    hide RunOf, AllDone, UpToDate;
    DeletedOnTheWay(w, repo, p, ss, i);
  }

  /** `ReconcileClusters` keeps a cluster that is the first of its name and as configured. */
  lemma Retained(w: World, repo: string, p: Plan, ss: seq<State>, i: nat, j: nat)
    requires RunOf(w, repo, p, ss) && j < |ss| && p.retain
    requires i < |p.list| && UpToDate(p, i)
    ensures SameAt(w, ss[j].world, KeyOf(p.list[i])) && KeyOf(p.list[i]) in ss[j].world
  {
    hide RunOf, UpToDate, NotLate;
    UpToDateNotLate(p, i);
    KeptThroughout(w, repo, p, ss, i, j);
  }

  // ----- Runs without errors -------------------------------------------------------------

  /** The last state of a run is one the run reaches. */
  lemma {:induction false} RunReaches(ss: seq<State>, j: nat)
    requires Run(ss) && j < |ss|
    ensures Reaches(ss[0], ss[j], j)
  {
    hide Next;
    if j > 0 { RunReaches(ss, j - 1); }
  }

  lemma {:induction false} ReachesRun(s: State, t: State, n: nat) returns (ss: seq<State>)
    requires Reaches(s, t, n)
    ensures Run(ss) && |ss| == n + 1 && ss[0] == s && ss[n] == t
    decreases n
  {
    hide Next;
    if n == 0 {
      ss := [s];
    } else {
      var m :| Reaches(s, m, n - 1) && Next(m, t);
      var before := ReachesRun(s, m, n - 1);
      ss := before + [t];
    }
  }

  /** Where no cluster is busy and every configuration has a node and a node type, a run without errors exists,
      and it ends with exactly the configured clusters unless a name is there twice. */
  lemma SomeRunSucceeds(w: World, repo: string, p: Plan) returns (ss: seq<State>)
    requires Ready(w, repo, p) && forall i :: 0 <= i < |p.list| ==> !Taken(p.list[i])
    requires forall n :: n in p.configs ==> n != "" && p.configs[n].nodeCount > 0 && p.configs[n].nodeType != ""
    ensures RunOf(w, repo, p, ss) && AllDone(ss[|ss| - 1])
    ensures NoLateDuplicate(p) ==> Converged(w, ss[|ss| - 1].world, repo, p.configs)
  {
    var s := State(w, Handlers(p));
    hide Handlers, Reaches, Remaining, Lists, Belongs, WellFormed, CanRun, Converged, NoLateDuplicate, AllDone, Run;
    AllStart(w, repo, p);
    var t, n := OneByOne(s, |s.handlers|, Key("", ""), 0);
    AllEnds(s, t);
    ss := ReachesRun(s, t, n);
    if NoLateDuplicate(p) { Convergence(w, repo, p, t, n); }
  }
}
