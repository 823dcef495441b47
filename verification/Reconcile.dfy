/**
 Reconciling benchmark clusters with their configurations
 (pkg/clustermanager/perf-tests/pkg/cluster.go). Every cluster and every new configuration gets a
 handler of its own; handlers run side by side, each retrying its calls to GKE, and a call that
 fails may have done anything to the cluster it was about.
 */
module Reconcile {
  import opened Text
  import opened Location

  const RETRY_TIMES := 3

  /** A cluster is named by its name and its location. */
  datatype Key = Key(name: string, location: string)

  datatype Status = Provisioning | Running | Stopping | Other

  /** `nodes` counts all nodes, those of a regional cluster over its three zones. */
  datatype Info = Info(status: Status, nodes: nat)

  datatype Config = Config(location: string, nodeCount: int, nodeType: string)

  datatype Cluster = Cluster(name: string, location: string, info: Info)

  type World = map<Key, Info>

  // ----- What a handler decides ----------------------------------------------------------

  predicate Busy(info: Info)
  {
    info.status == Provisioning || info.status == Stopping
  }

  function NodeCount(location: string, nodes: nat): nat
  {
    if Regional(location) then nodes / 3 else nodes
  }

  function NodesFor(config: Config): nat
    requires config.nodeCount > 0
  {
    if Regional(config.location) then 3 * config.nodeCount else config.nodeCount
  }

  /** What `NewCreateClusterRequest` accepts. */
  predicate Creatable(name: string, config: Config)
  {
    name != "" && config.nodeCount > 0 && config.nodeType != ""
  }

  datatype Step =
    | Deleting(tries: nat)
    | Creating(tries: nat)
    | Cleaning(creates: nat, tries: nat)
    | Done
    | Failed

  /** `at` is where the existing cluster is, `want` the configuration to create. */
  datatype Handler = Handler(name: string, at: Option<string>, want: Option<Config>, step: Step)

  function Begin(name: string, config: Config): Step
  {
    if Creatable(name, config) then Creating(0) else Failed
  }

  predicate Unchanged(c: Cluster, config: Option<Config>)
  {
    config.Some? && NodeCount(c.location, c.info.nodes) == config.value.nodeCount && c.location == config.value.location
  }

  /** A cluster is where and as large as configured. A location with at most one dash is a region, whose
      clusters have so many nodes in each of three zones. */
  predicate AsConfigured(c: Cluster, config: Config)
  {
    && c.location == config.location
    && if |Split(c.location, "-")| <= 2 then 3 * config.nodeCount <= c.info.nodes < 3 * (config.nodeCount + 1)
       else c.info.nodes == config.nodeCount
  }

  lemma UnchangedIff(c: Cluster, config: Config)
    requires WellFormed(c.location)
    ensures Unchanged(c, Some(config)) <==> AsConfigured(c, config)
  {
    hide WellFormed, Regional, Split;
    RegionalIff(c.location);
  }

  lemma UnchangedNone(c: Cluster, config: Option<Config>)
    ensures Unchanged(c, config) ==> config.Some?
  {
  }

  /** `handleExistingClusterHelper` up to its first call. */
  function HandleExisting(c: Cluster, config: Option<Config>, retainIfUnchanged: bool): Handler
  {
    Handler(c.name, Some(c.location), config,
            if Busy(c.info) || (retainIfUnchanged && Unchanged(c, config)) then Done else Deleting(0))
  }

  function HandleNew(name: string, config: Config): Handler
  {
    Handler(name, None, Some(config), Begin(name, config))
  }

  // ----- One call to GKE -----------------------------------------------------------------

  function OldKey(h: Handler): Key
    requires h.at.Some?
  {
    Key(h.name, Resolve(h.at.value))
  }

  function NewKey(h: Handler): Key
    requires h.want.Some?
  {
    Key(h.name, Resolve(h.want.value.location))
  }

  /** A broken cluster is deleted where GKE says it is. */
  function CleanKey(h: Handler): Key
    requires h.want.Some?
  {
    Key(h.name, Resolve(NewKey(h).location))
  }

  ghost predicate SameAt(w: World, w': World, k: Key)
  {
    (k in w <==> k in w') && (k in w ==> w[k] == w'[k])
  }

  /** Nothing but the cluster `k` is different. */
  ghost predicate SameElsewhere(w: World, w': World, k: Key)
  {
    forall x: Key :: x != k ==> SameAt(w, w', x)
  }

  function AfterDelete(h: Handler): Step
  {
    if h.want.Some? then Begin(h.name, h.want.value) else Done
  }

  function NextDelete(tries: nat): Step
  {
    if tries + 1 < RETRY_TIMES then Deleting(tries + 1) else Failed
  }

  function NextCreate(creates: nat): Step
  {
    if creates + 1 < RETRY_TIMES then Creating(creates + 1) else Failed
  }

  function NextClean(creates: nat, tries: nat): Step
  {
    if tries + 1 < RETRY_TIMES then Cleaning(creates, tries + 1) else NextCreate(creates)
  }

  ghost predicate Deletes(w: World, w': World, k: Key)
  {
    k in w && w' == w - {k}
  }

  ghost predicate Creates(w: World, w': World, k: Key, config: Config)
  {
    k !in w && config.nodeCount > 0 && w' == w[k := Info(Running, NodesFor(config))]
  }

  ghost predicate HandlerStep(h: Handler, w: World, h': Handler, w': World)
  {
    match h.step
    case Deleting(i) =>
      h.at.Some? &&
      (|| (Deletes(w, w', OldKey(h)) && h' == h.(step := AfterDelete(h)))
       || (SameElsewhere(w, w', OldKey(h)) && h' == h.(step := NextDelete(i))))
    case Creating(j) =>
      h.want.Some? &&
      (|| (Creates(w, w', NewKey(h), h.want.value) && h' == h.(step := Done))
       || (SameElsewhere(w, w', NewKey(h)) && NewKey(h) in w' && h' == h.(step := Cleaning(j, 0)))
       || (SameElsewhere(w, w', NewKey(h)) && h' == h.(step := NextCreate(j))))
    case Cleaning(j, i) =>
      h.want.Some? &&
      (|| (Deletes(w, w', CleanKey(h)) && h' == h.(step := NextCreate(j)))
       || (SameElsewhere(w, w', CleanKey(h)) && h' == h.(step := NextClean(j, i))))
    case _ => false
  }

  // ----- Handlers side by side -----------------------------------------------------------

  datatype State = State(world: World, handlers: seq<Handler>)

  ghost predicate StepOf(s: State, t: State, i: nat)
  {
    && i < |s.handlers| && |t.handlers| == |s.handlers|
    && HandlerStep(s.handlers[i], s.world, t.handlers[i], t.world)
    && t.handlers == s.handlers[i := t.handlers[i]]
  }

  ghost predicate Next(s: State, t: State)
  {
    exists i: nat :: StepOf(s, t, i)
  }

  ghost predicate Reaches(s: State, t: State, n: nat)
    decreases n
  {
    if n == 0 then s == t else exists m :: Reaches(s, m, n - 1) && Next(m, t)
  }

  predicate AllDone(s: State)
  {
    forall i :: 0 <= i < |s.handlers| ==> s.handlers[i].step == Done
  }

  // ----- Who handles what (`processClusters`) --------------------------------------------

  /** The first cluster of a name gets its configuration; it is gone from the map after that. */
  function Assigned(list: seq<Cluster>, configs: map<string, Config>, i: nat): Option<Config>
    requires i < |list|
  {
    if list[i].name in configs && (forall k :: 0 <= k < i ==> list[k].name != list[i].name)
    then Some(configs[list[i].name]) else None
  }

  /** The clusters found, the configurations, the order in which the second loop takes what is left of
      them, and whether unchanged clusters stay. */
  datatype Plan = Plan(list: seq<Cluster>, configs: map<string, Config>, names: seq<string>, retain: bool)

  function Handlers(p: Plan): seq<Handler>
    requires forall k :: 0 <= k < |p.names| ==> p.names[k] in p.configs
  {
    seq(|p.list|, i requires 0 <= i < |p.list| => HandleExisting(p.list[i], Assigned(p.list, p.configs, i), p.retain))
    + seq(|p.names|, k requires 0 <= k < |p.names| => HandleNew(p.names[k], p.configs[p.names[k]]))
  }

  /** The configurations left over once every cluster is handled, in any order. */
  ghost predicate Remaining(p: Plan)
  {
    && Distinct(p.names)
    && forall n :: n in p.names <==> n in p.configs && forall k :: 0 <= k < |p.list| ==> p.list[k].name != n
  }

  function Belongs(name: string, repo: string): bool
  {
    var prefix := repo + "--";
    |name| >= |prefix| && name[..|prefix|] == prefix
  }

  /** The clusters of a repo are those named after its benchmarks. */
  lemma BelongsIff(name: string, repo: string)
    ensures Belongs(name, repo) <==> exists benchmark :: name == repo + "--" + benchmark
  {
    var prefix := repo + "--";
    if Belongs(name, repo) { assert name == prefix + name[|prefix|..]; }
    if benchmark :| name == repo + "--" + benchmark { assert name[..|prefix|] == prefix; }
  }

  /** `listClustersForRepo`: the clusters of the repo, each once, in any order. */
  ghost predicate Lists(w: World, repo: string, list: seq<Cluster>)
  {
    && (forall i, j :: 0 <= i < j < |list| ==>
          Key(list[i].name, list[i].location) != Key(list[j].name, list[j].location))
    && (forall i :: 0 <= i < |list| ==>
          var k := Key(list[i].name, list[i].location);
          k in w && w[k] == list[i].info && Belongs(list[i].name, repo))
    && (forall k :: k in w && Belongs(k.name, repo) ==>
          exists i :: 0 <= i < |list| && Key(list[i].name, list[i].location) == k)
  }

  /** The configurations whose name is not among the first `i` clusters. */
  ghost predicate LeftOver(list: seq<Cluster>, configs: map<string, Config>, i: nat, left: map<string, Config>)
    requires i <= |list|
  {
    && (forall n :: n in left <==> n in configs && forall k :: 0 <= k < i ==> list[k].name != n)
    && (forall n :: n in left ==> left[n] == configs[n])
  }

  lemma LeftOverStep(list: seq<Cluster>, configs: map<string, Config>, i: nat, left: map<string, Config>)
    requires i < |list| && LeftOver(list, configs, i, left)
    ensures LeftOver(list, configs, i + 1, left - {list[i].name})
    ensures Assigned(list, configs, i) == if list[i].name in left then Some(left[list[i].name]) else None
  {
  }

  /** The first loop of `processClusters`: handlers are handed out while the map of configurations
      shrinks. */
  method ExistingHandlers(list: seq<Cluster>, configs: map<string, Config>, retain: bool)
    returns (handlers: seq<Handler>, clusterConfigs: map<string, Config>)
    ensures LeftOver(list, configs, |list|, clusterConfigs)
    ensures |handlers| == |list|
    ensures forall k :: 0 <= k < |list| ==> handlers[k] == HandleExisting(list[k], Assigned(list, configs, k), retain)
  {
    hide HandleExisting, Assigned, LeftOver;
    clusterConfigs, handlers := configs, [];
    LeftOverStart(list, configs);
    for i := 0 to |list|
      invariant |handlers| == i && LeftOver(list, configs, i, clusterConfigs)
      invariant forall k :: 0 <= k < i ==> handlers[k] == HandleExisting(list[k], Assigned(list, configs, k), retain)
    {
      var name := list[i].name;
      LeftOverStep(list, configs, i, clusterConfigs);
      var config := if name in clusterConfigs then Some(clusterConfigs[name]) else None;
      handlers := handlers + [HandleExisting(list[i], config, retain)];
      clusterConfigs := clusterConfigs - {name};
    }
  }

  lemma LeftOverStart(list: seq<Cluster>, configs: map<string, Config>)
    ensures LeftOver(list, configs, 0, configs)
  {
  }

  /** The second loop. */
  method NewHandlers(configs: map<string, Config>) returns (handlers: seq<Handler>, names: seq<string>)
    ensures Distinct(names) && (forall n :: n in names <==> n in configs)
    ensures |handlers| == |names|
    ensures forall k :: 0 <= k < |names| ==> handlers[k] == HandleNew(names[k], configs[names[k]])
  {
    hide HandleNew;
    handlers, names := [], [];
    var left := configs.Keys;
    while left != {}
      invariant |handlers| == |names| && Distinct(names) && left <= configs.Keys
      invariant forall n :: n in configs <==> n in names || n in left
      invariant forall n :: n in names ==> n !in left
      invariant forall k :: 0 <= k < |names| ==> handlers[k] == HandleNew(names[k], configs[names[k]])
      decreases |left|
    {
      var name :| name in left;
      handlers := handlers + [HandleNew(name, configs[name])];
      names := names + [name];
      left := left - {name};
    }
  }

  method ProcessClusters(list: seq<Cluster>, configs: map<string, Config>, retain: bool)
    returns (handlers: seq<Handler>, names: seq<string>)
    ensures Remaining(Plan(list, configs, names, retain))
    ensures handlers == Handlers(Plan(list, configs, names, retain))
  {
    hide HandleExisting, HandleNew, Assigned;
    var existing, left := ExistingHandlers(list, configs, retain);
    var created, order := NewHandlers(left);
    handlers, names := existing + created, order;
  }

  // ----- Every order of handlers ---------------------------------------------------------

  ghost predicate Touches(h: Handler, k: Key)
  {
    (h.at.Some? && k == OldKey(h)) || (h.want.Some? && k == NewKey(h))
  }

  ghost predicate Apart(g: Handler, h: Handler)
  {
    forall k :: Touches(g, k) ==> !Touches(h, k)
  }

  /** The cluster is there as configured. */
  ghost predicate Fits(w: World, k: Key, config: Config)
  {
    k in w && !Busy(w[k]) && NodeCount(config.location, w[k].nodes) == config.nodeCount
  }

  ghost predicate OldGone(h: Handler, w: World)
  {
    h.at.Some? && !(h.want.Some? && OldKey(h) == NewKey(h)) ==> OldKey(h) !in w
  }

  predicate Straight(h: Handler)
  {
    h.want.Some? ==> CleanKey(h) == NewKey(h)
  }

  /** What one handler has achieved, whatever the others do. */
  ghost predicate Progress(h: Handler, w: World)
  {
    Straight(h) &&
    match h.step
    case Deleting(_) => true
    case Creating(_) => h.want.Some? && OldGone(h, w)
    case Cleaning(_, _) => h.want.Some? && OldGone(h, w)
    case Done => OldGone(h, w) && (h.want.Some? ==> Fits(w, NewKey(h), h.want.value))
    case Failed => true
  }

  lemma OwnStep(h: Handler, w: World, h': Handler, w': World)
    requires Progress(h, w) && HandlerStep(h, w, h', w')
    ensures Progress(h', w') && h' == h.(step := h'.step)
    ensures forall k :: !Touches(h, k) ==> SameAt(w, w', k)
  {
    hide Resolve, Regional;
    StepFrame(h, w, h', w');
    if h.want.Some? && h.want.value.nodeCount > 0 { CreatedFits(h.want.value); }
    if h.at.Some? && h.want.Some? && !h.step.Deleting? && OldKey(h) != NewKey(h) {
      assert SameAt(w, w', OldKey(h));
    }
  }

  /** A step changes nothing but the clusters its handler is about. */
  lemma StepFrame(h: Handler, w: World, h': Handler, w': World)
    requires Straight(h) && HandlerStep(h, w, h', w')
    ensures h' == h.(step := h'.step)
    ensures forall k :: !Touches(h, k) ==> SameAt(w, w', k)
  {
    hide Resolve, Regional;
  }

  lemma CreatedFits(config: Config)
    requires config.nodeCount > 0
    ensures NodeCount(config.location, NodesFor(config)) == config.nodeCount
  {
    hide Regional;
  }

  lemma OtherStep(g: Handler, h: Handler, w: World, w': World)
    requires Apart(g, h) && Progress(h, w)
    requires forall k :: !Touches(g, k) ==> SameAt(w, w', k)
    ensures Progress(h, w')
  {
    hide Resolve, Regional;
    if h.at.Some? { assert Touches(h, OldKey(h)); }
    if h.want.Some? { assert Touches(h, NewKey(h)); }
  }

  /** The handlers keep to their own clusters, and nobody touches the rest. */
  ghost predicate Inv(w0: World, s: State)
  {
    && (forall i, j :: 0 <= i < j < |s.handlers| ==>
          Apart(s.handlers[i], s.handlers[j]) && Apart(s.handlers[j], s.handlers[i]))
    && (forall i :: 0 <= i < |s.handlers| ==> Progress(s.handlers[i], s.world))
    && (forall k :: (forall i :: 0 <= i < |s.handlers| ==> !Touches(s.handlers[i], k)) ==> SameAt(w0, s.world, k))
  }

  lemma TouchesSame(h: Handler, h': Handler)
    requires h' == h.(step := h'.step)
    ensures forall k :: Touches(h, k) <==> Touches(h', k)
  {
  }

  lemma InvStep(w0: World, s: State, t: State, i: nat)
    requires Inv(w0, s) && StepOf(s, t, i)
    ensures Inv(w0, t)
    ensures forall k :: 0 <= k < |s.handlers| ==> t.handlers[k] == s.handlers[k].(step := t.handlers[k].step)
  {
    hide HandlerStep, Progress, Touches, SameAt;
    var h, h' := s.handlers[i], t.handlers[i];
    OwnStep(h, s.world, h', t.world);
    TouchesSame(h, h');
    forall j | 0 <= j < |t.handlers| ensures Progress(t.handlers[j], t.world) {
      if j != i { OtherStep(h, s.handlers[j], s.world, t.world); }
    }
    forall k | forall j :: 0 <= j < |t.handlers| ==> !Touches(t.handlers[j], k)
      ensures SameAt(w0, t.world, k)
    {
      assert !Touches(h', k);
      forall j | 0 <= j < |s.handlers| ensures !Touches(s.handlers[j], k) {
        assert !Touches(t.handlers[j], k);
      }
      SameTwice(w0, s.world, t.world, k);
    }
  }

  lemma SameTwice(u: World, v: World, w: World, k: Key)
    requires SameAt(u, v, k) && SameAt(v, w, k)
    ensures SameAt(u, w, k)
  {
  }

  lemma {:induction false} InvReaches(w0: World, s: State, t: State, n: nat)
    requires Inv(w0, s) && Reaches(s, t, n)
    ensures Inv(w0, t) && |t.handlers| == |s.handlers|
    ensures forall k :: 0 <= k < |s.handlers| ==> t.handlers[k] == s.handlers[k].(step := t.handlers[k].step)
    decreases n
  {
    hide Inv, StepOf;
    if n > 0 {
      var m :| Reaches(s, m, n - 1) && Next(m, t);
      InvReaches(w0, s, m, n - 1);
      var i: nat :| StepOf(m, t, i);
      InvStep(w0, m, t, i);
      StepLength(m, t, i);
    }
  }

  lemma StepLength(s: State, t: State, i: nat)
    requires StepOf(s, t, i)
    ensures |t.handlers| == |s.handlers|
  {
  }

  // ----- Convergence ---------------------------------------------------------------------

  ghost predicate Setup(w: World, repo: string, p: Plan)
  {
    && Lists(w, repo, p.list) && Remaining(p)
    && (forall n :: n in p.configs ==> Belongs(n, repo) && WellFormed(p.configs[n].location))
    && (forall i :: 0 <= i < |p.list| ==> WellFormed(p.list[i].location) && !Busy(p.list[i].info))
  }

  /** No second cluster of a name sits where that name is configured to be. */
  predicate NoLateDuplicate(p: Plan)
  {
    forall i, j :: 0 <= i < j < |p.list| && p.list[i].name == p.list[j].name && p.list[j].name in p.configs ==>
      p.configs[p.list[j].name].location != p.list[j].location
  }

  /** Of the repo, exactly the configured clusters are left, and all others are as they were. */
  ghost predicate Converged(w0: World, w: World, repo: string, configs: map<string, Config>)
  {
    && (forall k: Key :: !Belongs(k.name, repo) ==> SameAt(w0, w, k))
    && (forall k: Key :: Belongs(k.name, repo) ==>
          (k in w <==> k.name in configs && configs[k.name].location == k.location))
    && (forall k: Key :: k in w && Belongs(k.name, repo) && k.name in configs ==> Fits(w, k, configs[k.name]))
  }

  /** The clusters one handler is about, with locations resolved. */
  lemma TouchesIs(p: Plan, i: nat)
    requires forall k :: 0 <= k < |p.names| ==> p.names[k] in p.configs
    requires forall n :: n in p.configs ==> WellFormed(p.configs[n].location)
    requires forall k :: 0 <= k < |p.list| ==> WellFormed(p.list[k].location)
    requires i < |p.list| + |p.names|
    ensures var h := Handlers(p)[i];
      && h.name == (if i < |p.list| then p.list[i].name else p.names[i - |p.list|])
      && (h.at.Some? <==> i < |p.list|) && (h.at.Some? ==> OldKey(h) == Key(h.name, p.list[i].location))
      && h.want == (if i < |p.list| then Assigned(p.list, p.configs, i) else Some(p.configs[p.names[i - |p.list|]]))
      && (h.want.Some? ==>
            && h.name in p.configs && h.want.value == p.configs[h.name]
            && NewKey(h) == CleanKey(h) == Key(h.name, p.configs[h.name].location))
  {
    hide WellFormed, Resolve;
    if i < |p.list| { ResolveExactIff(p.list[i].location); }
    var h := Handlers(p)[i];
    if h.want.Some? { ResolveExactIff(h.want.value.location); }
  }

  lemma HandlersApart(w: World, repo: string, p: Plan, i: nat, j: nat)
    requires Setup(w, repo, p) && NoLateDuplicate(p)
    requires i < j < |p.list| + |p.names|
    ensures var hs := Handlers(p); Apart(hs[i], hs[j]) && Apart(hs[j], hs[i])
  {
    hide WellFormed, Resolve, Handlers, Belongs;
    TouchesIs(p, i);
    TouchesIs(p, j);
    if i < |p.list| <= j {
      assert p.names[j - |p.list|] in p.names;
    }
  }

  lemma StartInv(w: World, repo: string, p: Plan)
    requires Setup(w, repo, p) && NoLateDuplicate(p)
    ensures Inv(w, State(w, Handlers(p)))
  {
    hide Progress, Apart, Handlers, Touches, WellFormed;
    var hs := Handlers(p);
    assert |hs| == |p.list| + |p.names| by { HandlersLength(p); }
    forall i, j | 0 <= i < j < |hs| ensures Apart(hs[i], hs[j]) && Apart(hs[j], hs[i]) {
      HandlersApart(w, repo, p, i, j);
    }
    forall i | 0 <= i < |hs| ensures Progress(hs[i], w) {
      StartProgress(w, repo, p, i);
    }
    forall k ensures SameAt(w, w, k) {
    }
  }

  lemma HandlersLength(p: Plan)
    requires forall k :: 0 <= k < |p.names| ==> p.names[k] in p.configs
    ensures |Handlers(p)| == |p.list| + |p.names|
  {
  }

  lemma StartProgress(w: World, repo: string, p: Plan, i: nat)
    requires Setup(w, repo, p) && i < |p.list| + |p.names|
    ensures Progress(Handlers(p)[i], w)
  {
    hide WellFormed, Resolve, Regional, Belongs;
    TouchesIs(p, i);
  }

  /** Whatever the order of the handlers and wherever calls fail: if no error is returned, exactly
      the configured clusters are left, at the configured location and node count, and no cluster
      of another repo is touched. */
  lemma Convergence(w: World, repo: string, p: Plan, t: State, n: nat)
    requires Setup(w, repo, p) && NoLateDuplicate(p)
    requires Reaches(State(w, Handlers(p)), t, n) && AllDone(t)
    ensures Converged(w, t.world, repo, p.configs)
  {
    hide Handlers, Setup, Ended, OneConverged, Converged, Reaches, AllDone, NoLateDuplicate;
    RunEnds(w, repo, p, t, n);
    forall k: Key ensures OneConverged(w, t.world, repo, p.configs, k) {
      KeyConverges(w, repo, p, t, k);
    }
    AllConverged(w, t.world, repo, p.configs);
  }

  lemma RunEnds(w: World, repo: string, p: Plan, t: State, n: nat)
    requires Setup(w, repo, p) && NoLateDuplicate(p)
    requires Reaches(State(w, Handlers(p)), t, n) && AllDone(t)
    ensures Ended(w, p, t)
  {
    var start := State(w, Handlers(p));
    hide Handlers, Inv, Reaches, NoLateDuplicate;
    StartInv(w, repo, p);
    InvReaches(w, start, t, n);
  }

  /** Convergence, cluster by cluster. */
  ghost predicate OneConverged(w0: World, w: World, repo: string, configs: map<string, Config>, k: Key)
  {
    if !Belongs(k.name, repo) then SameAt(w0, w, k)
    else if k.name in configs && configs[k.name].location == k.location then Fits(w, k, configs[k.name])
    else k !in w
  }

  lemma AllConverged(w0: World, w: World, repo: string, configs: map<string, Config>)
    requires forall k :: OneConverged(w0, w, repo, configs, k)
    ensures Converged(w0, w, repo, configs)
  {
    hide Belongs, SameAt, Regional, Busy;
    forall k: Key
      ensures !Belongs(k.name, repo) ==> SameAt(w0, w, k)
      ensures Belongs(k.name, repo) ==> (k in w <==> k.name in configs && configs[k.name].location == k.location)
      ensures k in w && Belongs(k.name, repo) && k.name in configs ==> Fits(w, k, configs[k.name])
    {
      assert OneConverged(w0, w, repo, configs, k);
    }
  }

  lemma KeyConverges(w: World, repo: string, p: Plan, t: State, k: Key)
    requires Setup(w, repo, p) && Ended(w, p, t)
    ensures OneConverged(w, t.world, repo, p.configs, k)
  {
    hide Setup, Ended, Belongs, SameAt, Fits, Remaining;
    if !Belongs(k.name, repo) {
      OthersUntouched(w, repo, p, t, k);
    } else if k.name in p.configs && p.configs[k.name].location == k.location {
      ConfiguredThere(w, repo, p, t, k.name);
    } else {
      RestGone(w, repo, p, t, k);
    }
  }

  /** A state at the end of a run. */
  ghost predicate Ended(w: World, p: Plan, t: State)
    requires forall k :: 0 <= k < |p.names| ==> p.names[k] in p.configs
  {
    var hs := Handlers(p);
    && Inv(w, t) && AllDone(t) && |t.handlers| == |hs|
    && forall k :: 0 <= k < |hs| ==> t.handlers[k] == hs[k].(step := Done)
  }

  lemma OthersUntouched(w: World, repo: string, p: Plan, t: State, k: Key)
    requires Setup(w, repo, p) && Ended(w, p, t)
    requires !Belongs(k.name, repo)
    ensures SameAt(w, t.world, k)
  {
    hide Handlers, WellFormed, Resolve, Progress, Apart, Belongs, Assigned;
    HandlersLength(p);
    forall i | 0 <= i < |t.handlers| ensures !Touches(t.handlers[i], k) {
      TouchesIs(p, i);
    }
  }

  lemma ConfiguredThere(w: World, repo: string, p: Plan, t: State, name: string)
    requires Setup(w, repo, p) && Ended(w, p, t)
    requires name in p.configs
    ensures Fits(t.world, Key(name, p.configs[name].location), p.configs[name])
  {
    hide Handlers, WellFormed, Resolve, Apart, Belongs, Fits, Touches, SameAt;
    HandlersLength(p);
    var i := HandlerOf(p, name);
    TouchesIs(p, i);
    assert Progress(t.handlers[i], t.world);
  }

  /** Every configuration has its handler. */
  lemma {:induction false} HandlerOf(p: Plan, name: string) returns (i: nat)
    requires Remaining(p) && name in p.configs
    ensures i < |p.list| + |p.names|
    ensures if i < |p.list| then p.list[i].name == name && Assigned(p.list, p.configs, i) == Some(p.configs[name])
            else p.names[i - |p.list|] == name
  {
    if k: nat :| k < |p.list| && p.list[k].name == name {
      i := k;
      while exists j :: 0 <= j < i && p.list[j].name == name
        invariant i < |p.list| && p.list[i].name == name
        decreases i
      {
        var j :| 0 <= j < i && p.list[j].name == name;
        i := j;
      }
    } else {
      assert forall k: nat :: k < |p.list| ==> p.list[k].name != name;
      assert name in p.names;
      var k :| 0 <= k < |p.names| && p.names[k] == name;
      i := |p.list| + k;
    }
  }

  lemma RestGone(w: World, repo: string, p: Plan, t: State, k: Key)
    requires Setup(w, repo, p) && Ended(w, p, t)
    requires Belongs(k.name, repo) && !(k.name in p.configs && p.configs[k.name].location == k.location)
    ensures k !in t.world
  {
    hide Handlers, WellFormed, Resolve, Apart, Belongs, Fits;
    HandlersLength(p);
    if k in w {
      var i: nat :| i < |p.list| && Key(p.list[i].name, p.list[i].location) == k;
      TouchesIs(p, i);
      assert Touches(t.handlers[i], k);
    }
    if i: nat :| i < |t.handlers| && Touches(t.handlers[i], k) {
      TouchesIs(p, i);
      assert Progress(t.handlers[i], t.world);
    } else {
      assert forall i: nat :: i < |t.handlers| ==> !Touches(t.handlers[i], k);
      assert SameAt(w, t.world, k);
    }
  }

  /** A second run finds nothing to do: every handler is done before its first call. */
  lemma SecondRunIdle(w0: World, w: World, repo: string, p: Plan)
    requires Converged(w0, w, repo, p.configs) && Lists(w, repo, p.list) && Remaining(p)
    requires forall n :: n in p.configs ==> Belongs(n, repo)
    requires p.retain
    ensures AllDone(State(w, Handlers(p)))
  {
    hide Belongs, Regional;
    forall i, j | 0 <= i < j < |p.list| ensures p.list[i].name != p.list[j].name {
      var a, b := Key(p.list[i].name, p.list[i].location), Key(p.list[j].name, p.list[j].location);
      assert a in w && b in w && Belongs(a.name, repo) && Belongs(b.name, repo);
    }
    forall i | 0 <= i < |p.list| ensures HandleExisting(p.list[i], Assigned(p.list, p.configs, i), true).step == Done {
      var a := Key(p.list[i].name, p.list[i].location);
      assert a in w && Belongs(a.name, repo) && a.name in p.configs && p.configs[a.name].location == a.location;
      assert Fits(w, a, p.configs[a.name]);
    }
    forall n | n in p.configs ensures n !in p.names {
      var a := Key(n, p.configs[n].location);
      assert a in w;
      var i: nat :| i < |p.list| && Key(p.list[i].name, p.list[i].location) == a;
      assert p.list[i].name == n;
    }
    assert Elements(p.names) == {};
    EmptyElements(p.names);
  }

  // ----- When a name is there twice ------------------------------------------------------

  /** Where a handler leaves the clusters when nothing disturbs it. */
  function EndWorld(h: Handler, w: World): World
    requires h.want.Some? ==> h.want.value.nodeCount > 0
  {
    if h.step == Done then w
    else
      var v := if h.at.Some? then w - {OldKey(h)} else w;
      if h.want.Some? then v[NewKey(h) := Info(Running, NodesFor(h.want.value))] else v
  }

  lemma OneMore(s: State, m: State, t: State, n: nat, i: nat)
    requires Reaches(s, m, n) && StepOf(m, t, i)
    ensures Reaches(s, t, n + 1)
  {
    hide StepOf;
    assert Next(m, t);
  }

  /** A handler moves on its own. */
  lemma Move(s: State, m: State, n: nat, i: nat, step: Step, w: World) returns (t: State)
    requires Reaches(s, m, n) && i < |m.handlers|
    requires HandlerStep(m.handlers[i], m.world, m.handlers[i].(step := step), w)
    ensures t == State(w, m.handlers[i := m.handlers[i].(step := step)])
    ensures Reaches(s, t, n + 1)
  {
    hide HandlerStep, Reaches;
    t := State(w, m.handlers[i := m.handlers[i].(step := step)]);
    assert StepOf(m, t, i);
    OneMore(s, m, t, n, i);
  }

  lemma SameEverywhere(w: World, k: Key)
    ensures SameElsewhere(w, w, k)
  {
  }

  /** A new cluster can be created, also where one of that name is in the way: the first try fails,
      the old one is cleaned away, the second try succeeds. */
  lemma CreateAlone(s: State, m: State, n: nat, i: nat) returns (t: State, n': nat)
    requires Reaches(s, m, n) && i < |m.handlers|
    requires m.handlers[i].step == Creating(0) && Straight(m.handlers[i])
    requires m.handlers[i].want.Some? && m.handlers[i].want.value.nodeCount > 0
    ensures var h := m.handlers[i];
      t == State(m.world[NewKey(h) := Info(Running, NodesFor(h.want.value))], m.handlers[i := h.(step := Done)])
    ensures Reaches(s, t, n')
  {
    hide Reaches, SameElsewhere, Resolve, Regional;
    var h := m.handlers[i];
    var k := NewKey(h);
    if k in m.world {
      SameEverywhere(m.world, k);
      var a := Move(s, m, n, i, Cleaning(0, 0), m.world);
      var b := Move(s, a, n + 1, i, Creating(1), m.world - {k});
      t := Move(s, b, n + 2, i, Done, (m.world - {k})[k := Info(Running, NodesFor(h.want.value))]);
      n' := n + 3;
    } else {
      t := Move(s, m, n, i, Done, m.world[k := Info(Running, NodesFor(h.want.value))]);
      n' := n + 1;
    }
    assert t.handlers == m.handlers[i := h.(step := Done)];
  }

  /** A handler before its first call, with a configuration GKE accepts. */
  predicate Fresh(h: Handler)
  {
    && (h.want.Some? ==> Creatable(h.name, h.want.value)) && Straight(h)
    && (|| h.step == Done
        || (h.step == Deleting(0) && h.at.Some?)
        || (h.step == Creating(0) && h.at.None? && h.want.Some?))
  }

  /** The cluster it is to delete is there. */
  ghost predicate CanDelete(h: Handler, w: World)
  {
    h.step == Deleting(0) && h.at.Some? ==> OldKey(h) in w
  }

  lemma RunAlone(s: State, m: State, n: nat, i: nat) returns (t: State, n': nat)
    requires Reaches(s, m, n) && i < |m.handlers| && Fresh(m.handlers[i])
    requires CanDelete(m.handlers[i], m.world)
    ensures t == State(EndWorld(m.handlers[i], m.world), m.handlers[i := m.handlers[i].(step := Done)])
    ensures Reaches(s, t, n')
  {
    hide Reaches, SameElsewhere, Resolve, Regional;
    var h := m.handlers[i];
    if h.step == Done {
      t, n' := m, n;
    } else if h.step == Deleting(0) {
      t := Move(s, m, n, i, AfterDelete(h), m.world - {OldKey(h)});
      n' := n + 1;
      if h.want.Some? {
        var a := t;
        t, n' := CreateAlone(s, a, n', i);
        assert t.handlers == m.handlers[i := h.(step := Done)];
      }
    } else {
      t, n' := CreateAlone(s, m, n, i);
    }
  }

  /** Every handler can start. */
  ghost predicate CanRun(s: State)
  {
    var hs := s.handlers;
    && (forall i :: 0 <= i < |hs| ==> Fresh(hs[i]) && CanDelete(hs[i], s.world))
    && (forall i, j :: 0 <= i < j < |hs| && hs[i].at.Some? && hs[j].at.Some? ==> OldKey(hs[i]) != OldKey(hs[j]))
  }

  /** Handler number `late` deletes what none after it creates. */
  ghost predicate Loses(s: State, lost: Key, late: nat)
  {
    var hs := s.handlers;
    && late < |hs| && hs[late].step == Deleting(0) && hs[late].at.Some? && hs[late].want.None?
    && OldKey(hs[late]) == lost
    && (forall i :: late < i < |hs| && hs[i].want.Some? ==> NewKey(hs[i]) != lost)
  }

  /** One handler after the other, the first `m` of them. */
  lemma {:induction false} OneByOne(s: State, m: nat, lost: Key, late: nat) returns (t: State, n: nat)
    requires m <= |s.handlers| && CanRun(s)
    ensures Reaches(s, t, n) && |t.handlers| == |s.handlers|
    ensures forall i :: 0 <= i < m ==> t.handlers[i] == s.handlers[i].(step := Done)
    ensures forall i :: m <= i < |s.handlers| ==> t.handlers[i] == s.handlers[i]
    ensures forall i :: m <= i < |s.handlers| ==> CanDelete(s.handlers[i], t.world)
    ensures Loses(s, lost, late) && m > late ==> lost !in t.world
  {
    hide Reaches, Resolve, Regional;
    if m == 0 {
      t, n := s, 0;
      ReachesSelf(s);
    } else {
      var a, k := OneByOne(s, m - 1, lost, late);
      t, n := RunAlone(s, a, k, m - 1);
    }
  }

  lemma ReachesSelf(s: State)
    ensures Reaches(s, s, 0)
  {
  }

  lemma HandlersFresh(w: World, repo: string, p: Plan, i: nat)
    requires Setup(w, repo, p)
    requires forall n :: n in p.configs ==> Creatable(n, p.configs[n])
    requires i < |p.list| + |p.names|
    ensures var h := Handlers(p)[i]; Fresh(h) && CanDelete(h, w)
  {
    hide WellFormed, Resolve, Regional, Belongs;
    TouchesIs(p, i);
  }

  /** With two clusters of a name, one of them where that name is configured, the handler of the
      second can delete what the handler of the first has created: no error is returned, and the
      configured cluster is missing. */
  lemma LateDuplicateLosesCluster(w: World, repo: string, p: Plan)
    returns (t: State, n: nat)
    requires Setup(w, repo, p) && !NoLateDuplicate(p)
    requires forall n :: n in p.configs ==> Creatable(n, p.configs[n])
    ensures Reaches(State(w, Handlers(p)), t, n) && AllDone(t)
    ensures !Converged(w, t.world, repo, p.configs)
  {
    var i: nat, late: nat :|
      i < late < |p.list| && p.list[i].name == p.list[late].name && p.list[late].name in p.configs
        && p.configs[p.list[late].name].location == p.list[late].location;
    var s := State(w, Handlers(p));
    var lost := Key(p.list[late].name, p.list[late].location);
    LateStarts(w, repo, p, i, late);
    hide Handlers, Reaches, CanRun, Loses, Setup, Converged, NoLateDuplicate;
    t, n := OneByOne(s, |s.handlers|, lost, late);
    AllEnds(s, t);
    LostIsBad(w, repo, p, late, t.world);
  }

  lemma AllEnds(s: State, t: State)
    requires |t.handlers| == |s.handlers|
    requires forall i :: 0 <= i < |s.handlers| ==> t.handlers[i] == s.handlers[i].(step := Done)
    ensures AllDone(t)
  {
  }

  lemma LateStarts(w: World, repo: string, p: Plan, i: nat, late: nat)
    requires Setup(w, repo, p) && i < late < |p.list| && p.list[i].name == p.list[late].name
    requires p.list[late].name in p.configs && p.configs[p.list[late].name].location == p.list[late].location
    requires forall n :: n in p.configs ==> Creatable(n, p.configs[n])
    ensures CanRun(State(w, Handlers(p))) && late < |Handlers(p)|
    ensures Loses(State(w, Handlers(p)), Key(p.list[late].name, p.list[late].location), late)
  {
    hide Handlers, Fresh, CanDelete, Setup, CanRun, Resolve;
    AllStart(w, repo, p);
    LateApart(w, repo, p, i, late);
  }

  lemma AllStart(w: World, repo: string, p: Plan)
    requires Setup(w, repo, p)
    requires forall n :: n in p.configs ==> Creatable(n, p.configs[n])
    ensures CanRun(State(w, Handlers(p)))
  {
    var hs := Handlers(p);
    HandlersLength(p);
    hide Handlers, Fresh, CanDelete, Belongs, WellFormed, Resolve, Busy, Creatable;
    forall k | 0 <= k < |hs| ensures Fresh(hs[k]) && CanDelete(hs[k], w) {
      HandlersFresh(w, repo, p, k);
    }
    forall a, b | 0 <= a < b < |hs| && hs[a].at.Some? && hs[b].at.Some? ensures OldKey(hs[a]) != OldKey(hs[b]) {
      TouchesIs(p, a);
      TouchesIs(p, b);
    }
  }

  lemma LostIsBad(w: World, repo: string, p: Plan, late: nat, v: World)
    requires Setup(w, repo, p) && late < |p.list| && p.list[late].name in p.configs
    requires p.configs[p.list[late].name].location == p.list[late].location
    requires Key(p.list[late].name, p.list[late].location) !in v
    ensures !Converged(w, v, repo, p.configs)
  {
    hide WellFormed, Belongs, Fits;
    assert Belongs(Key(p.list[late].name, p.list[late].location).name, repo);
  }

  lemma LateApart(w: World, repo: string, p: Plan, i: nat, late: nat)
    requires Setup(w, repo, p) && i < late < |p.list| && p.list[i].name == p.list[late].name
    requires p.list[late].name in p.configs && p.configs[p.list[late].name].location == p.list[late].location
    ensures var hs := Handlers(p);
      var lost := Key(p.list[late].name, p.list[late].location);
      && late < |hs| && hs[late].step == Deleting(0) && hs[late].at.Some? && OldKey(hs[late]) == lost
      && hs[late].want.None?
      && (forall a :: late < a < |hs| && hs[a].want.Some? ==> NewKey(hs[a]) != lost)
  {
    hide WellFormed, Resolve, Regional, Belongs, Handlers;
    var hs := Handlers(p);
    HandlersLength(p);
    LateStart(p, late);
    TouchesIs(p, late);
    var lost := Key(p.list[late].name, p.list[late].location);
    forall a | late < a < |hs| && hs[a].want.Some? ensures NewKey(hs[a]) != lost {
      TouchesIs(p, a);
      if a >= |p.list| { assert p.names[a - |p.list|] in p.names; }
    }
  }

  lemma LateStart(p: Plan, late: nat)
    requires forall k :: 0 <= k < |p.names| ==> p.names[k] in p.configs
    requires late < |p.list| && !Busy(p.list[late].info)
    requires exists i: nat :: i < late && p.list[i].name == p.list[late].name
    ensures var h := Handlers(p)[late]; h.step == Deleting(0) && h.want.None?
  {
    hide Regional;
  }

  /** The exact condition under which every run without errors converges. */
  lemma ConvergesIff(w: World, repo: string, p: Plan)
    requires Setup(w, repo, p)
    requires forall n :: n in p.configs ==> Creatable(n, p.configs[n])
    ensures (forall t, n: nat :: Reaches(State(w, Handlers(p)), t, n) && AllDone(t) ==>
                Converged(w, t.world, repo, p.configs))
       <==> NoLateDuplicate(p)
  {
    var s := State(w, Handlers(p));
    hide Setup, Handlers, Reaches, AllDone, Converged, NoLateDuplicate, Creatable;
    if NoLateDuplicate(p) {
      forall t, n: nat | Reaches(s, t, n) && AllDone(t) ensures Converged(w, t.world, repo, p.configs) {
        Convergence(w, repo, p, t, n);
      }
    } else {
      var t, n := LateDuplicateLosesCluster(w, repo, p);
    }
  }

  // ----- Every run ends ------------------------------------------------------------------

  /** The steps a handler has left at most. */
  function Rank(step: Step): nat
  {
    match step
    case Deleting(i) => if i < RETRY_TIMES then 12 + (RETRY_TIMES - i) else 13
    case Creating(j) => if j < RETRY_TIMES then 4 * (RETRY_TIMES - j) else 4
    case Cleaning(j, i) =>
      (if j < RETRY_TIMES then 4 * (RETRY_TIMES - j - 1) else 0) + (if i < RETRY_TIMES then RETRY_TIMES - i else 1)
    case Done => 0
    case Failed => 0
  }

  lemma RankFalls(h: Handler, w: World, h': Handler, w': World)
    requires HandlerStep(h, w, h', w')
    ensures Rank(h'.step) < Rank(h.step)
  {
    hide Deletes, Creates, SameElsewhere, Resolve;
  }

  function TotalRank(hs: seq<Handler>): nat
  {
    if hs == [] then 0 else Rank(hs[0].step) + TotalRank(hs[1..])
  }

  lemma {:induction false} RankUpdate(hs: seq<Handler>, i: nat, h: Handler)
    requires i < |hs| && Rank(h.step) < Rank(hs[i].step)
    ensures TotalRank(hs[i := h]) < TotalRank(hs)
  {
    hide Rank;
    if i > 0 {
      RankUpdate(hs[1..], i - 1, h);
      assert hs[i := h][1..] == hs[1..][i - 1 := h];
    } else {
      assert hs[0 := h][1..] == hs[1..];
    }
  }

  lemma {:induction false} RankBound(hs: seq<Handler>)
    requires forall i :: 0 <= i < |hs| ==> Rank(hs[i].step) <= 15
    ensures TotalRank(hs) <= 15 * |hs|
  {
    if hs != [] { RankBound(hs[1..]); }
  }

  lemma {:induction false} RunRank(s: State, t: State, n: nat)
    requires Reaches(s, t, n)
    ensures TotalRank(t.handlers) + n <= TotalRank(s.handlers)
    decreases n
  {
    hide HandlerStep, Rank, TotalRank;
    if n > 0 {
      var m :| Reaches(s, m, n - 1) && Next(m, t);
      RunRank(s, m, n - 1);
      var i: nat :| StepOf(m, t, i);
      RankFalls(m.handlers[i], m.world, t.handlers[i], t.world);
      RankUpdate(m.handlers, i, t.handlers[i]);
    }
  }

  /** However calls fail, a run is over after at most 15 steps for each handler: three deletions,
      and three creations with three deletions of a broken cluster after each. */
  lemma RunsAreBounded(w: World, p: Plan, t: State, n: nat)
    requires forall k :: 0 <= k < |p.names| ==> p.names[k] in p.configs
    requires Reaches(State(w, Handlers(p)), t, n)
    ensures n <= 15 * (|p.list| + |p.names|)
  {
    var hs := Handlers(p);
    HandlersLength(p);
    forall i | 0 <= i < |hs| ensures Rank(hs[i].step) <= 15 {
      RankStart(p, i);
    }
    hide Handlers, Reaches, Rank, TotalRank;
    RunRank(State(w, hs), t, n);
    RankBound(hs);
  }

  lemma RankStart(p: Plan, i: nat)
    requires forall k :: 0 <= k < |p.names| ==> p.names[k] in p.configs
    requires i < |p.list| + |p.names|
    ensures Rank(Handlers(p)[i].step) <= 15
  {
    hide Regional, Resolve;
  }

  // ----- The retry loops -----------------------------------------------------------------

  /** A handler on its own, `n` steps. */
  ghost predicate Runs(h: Handler, w: World, h': Handler, w': World, n: nat)
    decreases n
  {
    if n == 0 then h == h' && w == w'
    else exists g, v :: Runs(h, w, g, v, n - 1) && HandlerStep(g, v, h', w')
  }

  lemma RunsMore(h: Handler, w: World, g: Handler, v: World, n: nat, h': Handler, w': World)
    requires Runs(h, w, g, v, n) && HandlerStep(g, v, h', w')
    ensures Runs(h, w, h', w', n + 1)
  {
  }

  lemma RunsSelf(h: Handler, w: World)
    ensures Runs(h, w, h, w, 0)
  {
  }

  /** The GKE API. A call that fails may have had any effect on the cluster it was about. */
  class Gke {
    var clusters: World

    constructor (clusters: World)
      ensures this.clusters == clusters
    {
      this.clusters := clusters;
    }

    method Disturb(k: Key)
      modifies this
      ensures SameElsewhere(old(clusters), clusters, k)
    {
      var info: Option<Info> := *;
      clusters := if info.Some? then clusters[k := info.value] else clusters - {k};
    }

    method DeleteCluster(k: Key) returns (ok: bool)
      modifies this
      ensures if ok then Deletes(old(clusters), clusters, k) else SameElsewhere(old(clusters), clusters, k)
    {
      if * {
        Disturb(k);
        return false;
      }
      ok := k in clusters;
      clusters := clusters - {k};
    }

    method CreateCluster(k: Key, config: Config) returns (ok: bool)
      modifies this
      ensures if ok then Creates(old(clusters), clusters, k, config) else SameElsewhere(old(clusters), clusters, k)
    {
      if * {
        Disturb(k);
        return false;
      }
      ok := k !in clusters && config.nodeCount > 0;
      if ok {
        clusters := clusters[k := Info(Running, NodesFor(config))];
      }
    }

    method GetCluster(k: Key) returns (found: bool)
      ensures found ==> k in clusters
    {
      found := *;
      found := found && k in clusters;
    }

    /** `deleteClusterWithRetries`, for the existing cluster of a handler or for a broken one: a run
        of the handler. */
    method DeleteClusterWithRetries(name: string, location: string, ghost h: Handler) returns (ok: bool, ghost n: nat)
      requires ToDelete(h, name, location)
      modifies this
      ensures Runs(h, old(clusters), h.(step := AfterDeletes(h, ok)), clusters, n)
      ensures 1 <= n <= 3 && (!ok ==> n == 3)
    {
      hide Resolve, Runs, HandlerStep, ToDelete;
      ok, n := false, 0;
      RunsSelf(h, clusters);
      DeletesStart(h, name, location);
      var i := 0;
      while i < RETRY_TIMES && !ok
        invariant 0 <= i <= RETRY_TIMES && n == i && (ok ==> i > 0)
        invariant Runs(h, old(clusters), h.(step := DuringDeletes(h, ok, i)), clusters, n)
      {
        ghost var before, step := clusters, DuringDeletes(h, ok, i);
        ok := DeleteCluster(Key(name, Resolve(location)));
        DeletesStep(h, name, location, before, clusters, ok, i);
        RunsMore(h, old(clusters), h.(step := step), before, n, h.(step := DuringDeletes(h, ok, i + 1)), clusters);
        n := n + 1;
        i := i + 1;
      }
    }

    /** `createClusterWithRetries`: a run of the handler. */
    method CreateClusterWithRetries(name: string, config: Config, ghost h: Handler) returns (ok: bool, ghost n: nat)
      requires h.name == name && h.want == Some(config) && h.step == Begin(name, config)
      modifies this
      ensures Runs(h, old(clusters), h.(step := if ok then Done else Failed), clusters, n)
      ensures if name != "" && config.nodeCount > 0 && config.nodeType != "" then n >= if ok then 1 else 3
              else !ok && n == 0 && clusters == old(clusters)
    {
      hide Resolve, Runs, HandlerStep;
      ok, n := false, 0;
      RunsSelf(h, clusters);
      if !Creatable(name, config) {
        assert h == h.(step := Failed);
        return;
      }
      var k := Key(name, Resolve(config.location));
      var i := 0;
      while i < RETRY_TIMES && !ok
        invariant 0 <= i <= RETRY_TIMES && i <= n && (ok ==> i > 0)
        invariant Runs(h, old(clusters), h.(step := DuringCreates(ok, i)), clusters, n)
      {
        ghost var before, step := clusters, DuringCreates(ok, i);
        ok := CreateCluster(k, config);
        var found := false;
        if !ok {
          found := GetCluster(k);
        }
        CreatesStep(h, before, clusters, ok, found, i);
        ghost var g := h.(step := AfterCreate(ok, found, i));
        RunsMore(h, old(clusters), h.(step := step), before, n, g, clusters);
        n := n + 1;
        if found {
          ghost var between := clusters;
          var deleted, m := DeleteClusterWithRetries(name, k.location, g);
          RunsOn(h, old(clusters), g, between, n, h.(step := NextCreate(i)), clusters, m);
          n := n + m;
        }
        i := i + 1;
      }
    }

    /** `handleExistingClusterHelper`. */
    method HandleExistingCluster(c: Cluster, config: Option<Config>, retain: bool) returns (ok: bool, ghost n: nat)
      modifies this
      ensures Runs(HandleExisting(c, config, retain), old(clusters),
                   HandleExisting(c, config, retain).(step := if ok then Done else Failed), clusters, n)
      ensures n == 0 ==> ok && clusters == old(clusters)
      ensures WellFormed(c.location) ==>
                (n == 0 <==>
                 || c.info.status == Provisioning || c.info.status == Stopping
                 || (retain && config.Some? && AsConfigured(c, config.value)))
    {
      hide Resolve, Runs, HandlerStep, Unchanged, AsConfigured, WellFormed;
      if config.Some? && WellFormed(c.location) { UnchangedIff(c, config.value); }
      UnchangedNone(c, config);
      ghost var h := HandleExisting(c, config, retain);
      RunsSelf(h, clusters);
      if Busy(c.info) || (retain && Unchanged(c, config)) {
        assert h == h.(step := Done);
        return true, 0;
      }
      ok, n := DeleteClusterWithRetries(c.name, c.location, h);
      ghost var g := h.(step := AfterDeletes(h, ok));
      if ok && config.Some? {
        ghost var between, m := clusters, n;
        ok, m := CreateClusterWithRetries(c.name, config.value, g);
        RunsOn(h, old(clusters), g, between, n, g.(step := if ok then Done else Failed), clusters, m);
        n := n + m;
      }
    }
  }

  /** The handler is about to delete the cluster of that name at that location. */
  ghost predicate ToDelete(h: Handler, name: string, location: string)
  {
    match h.step
    case Deleting(i) => i == 0 && h.at.Some? && OldKey(h) == Key(name, Resolve(location))
    case Cleaning(_, i) => i == 0 && h.want.Some? && CleanKey(h) == Key(name, Resolve(location))
    case _ => false
  }

  /** The step of a handler after all tries of a deletion. */
  ghost function AfterDeletes(h: Handler, ok: bool): Step
  {
    match h.step
    case Cleaning(j, _) => NextCreate(j)
    case _ => if ok then AfterDelete(h) else Failed
  }

  ghost function DuringDeletes(h: Handler, ok: bool, i: nat): Step
  {
    if ok || i >= RETRY_TIMES then AfterDeletes(h, ok)
    else match h.step
    case Cleaning(j, _) => Cleaning(j, i)
    case _ => Deleting(i)
  }

  ghost function DuringCreates(ok: bool, i: nat): Step
  {
    if ok then Done else if i < RETRY_TIMES then Creating(i) else Failed
  }

  ghost function AfterCreate(ok: bool, found: bool, i: nat): Step
  {
    if ok then Done else if found then Cleaning(i, 0) else NextCreate(i)
  }

  lemma DeletesStart(h: Handler, name: string, location: string)
    requires ToDelete(h, name, location)
    ensures h.(step := DuringDeletes(h, false, 0)) == h
  {
    hide Resolve;
  }

  lemma DeletesStep(h: Handler, name: string, location: string, w: World, w': World, ok: bool, i: nat)
    requires ToDelete(h, name, location) && i < RETRY_TIMES
    requires var k := Key(name, Resolve(location)); if ok then Deletes(w, w', k) else SameElsewhere(w, w', k)
    ensures HandlerStep(h.(step := DuringDeletes(h, false, i)), w, h.(step := DuringDeletes(h, ok, i + 1)), w')
  {
    hide Resolve, SameElsewhere, Deletes;
  }

  lemma CreatesStep(h: Handler, w: World, w': World, ok: bool, found: bool, i: nat)
    requires h.want.Some? && i < RETRY_TIMES && (found ==> !ok && NewKey(h) in w')
    requires if ok then Creates(w, w', NewKey(h), h.want.value) else SameElsewhere(w, w', NewKey(h))
    ensures HandlerStep(h.(step := DuringCreates(false, i)), w, h.(step := AfterCreate(ok, found, i)), w')
  {
    hide Resolve, SameElsewhere, Creates;
  }

  lemma {:induction false} RunsOn(h: Handler, w: World, g: Handler, v: World, n: nat, h': Handler, w': World, m: nat)
    requires Runs(h, w, g, v, n) && Runs(g, v, h', w', m)
    ensures Runs(h, w, h', w', n + m)
    decreases m
  {
    hide HandlerStep;
    if m > 0 {
      var f, u :| Runs(g, v, f, u, m - 1) && HandlerStep(f, u, h', w');
      RunsOn(h, w, g, v, n, f, u, m - 1);
    }
  }
}
