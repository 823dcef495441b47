/**
 The two tables of the cluster pool service and the statements run on them
 (tools/dkcm/clerk/clerk.go, tools/dkcm/clerk/schema.sql).
 */
module Clerk {
  import opened Text

  datatype Params = Params(zone: string, nodes: int, nodeType: string)

  datatype Status = WIP | Ready | InUse | Failed

  /** A row of Clusters. `lease` numbers the Boskos acquisition the row came from; the service
      stores the project only, the number is there to tell acquisitions of one project apart. */
  datatype Cluster = Cluster(project: string, lease: nat, status: Status, params: Params)

  /** A row of Requests. `clusterId` is 0 while waiting, -1 after a timeout. */
  datatype Request = Request(token: string, time: int, params: Params, prowJob: string, clusterId: int)

  datatype Tables = Tables(
    clusters: map<int, Cluster>,
    requests: map<int, Request>,
    nextCluster: int,
    nextRequest: int)

  /** IDs are MySQL `int` columns that start at 1 and count up. */
  const MAX_ID := 0x7FFF_FFFF

  ghost predicate IdsInRange(t: Tables)
  {
    && 1 <= t.nextCluster <= MAX_ID + 1 && 1 <= t.nextRequest <= MAX_ID + 1
    && (forall c :: c in t.clusters ==> 1 <= c < t.nextCluster)
    && (forall r :: r in t.requests ==> 1 <= r < t.nextRequest)
  }

  function WithStatus(t: Tables, p: Params, status: Status): set<int>
  {
    set c | c in t.clusters && t.clusters[c].status == status && t.clusters[c].params == p
  }

  /** Requests that still wait for the configuration of `r` and came strictly earlier. */
  function Ahead(t: Tables, r: int): set<int>
    requires r in t.requests
  {
    set q | q in t.requests && t.requests[q].clusterId == 0
            && t.requests[q].params == t.requests[r].params
            && t.requests[q].time < t.requests[r].time
  }

  /** `RANK() OVER (ORDER BY RequestTime)` among the waiting requests; no row, no rank. */
  function Rank(t: Tables, r: int): int
    requires r in t.requests
  {
    if t.requests[r].clusterId == 0 then 1 + |Ahead(t, r)| else MAX_INT64
  }

  function SetRequest(t: Tables, r: int, clusterId: int): Tables
  {
    if r in t.requests then t.(requests := t.requests[r := t.requests[r].(clusterId := clusterId)]) else t
  }

  function SetCluster(t: Tables, c: int, status: Status): Tables
  {
    if c in t.clusters then t.(clusters := t.clusters[c := t.clusters[c].(status := status)]) else t
  }

  function InsertedCluster(t: Tables, project: string, lease: nat, p: Params): Tables
  {
    t.(clusters := t.clusters[t.nextCluster := Cluster(project, lease, WIP, p)], nextCluster := t.nextCluster + 1)
  }

  function InsertedRequest(t: Tables, token: string, time: int, p: Params, prowJob: string): Tables
  {
    t.(requests := t.requests[t.nextRequest := Request(token, time, p, prowJob, 0)], nextRequest := t.nextRequest + 1)
  }

  function Expired(q: Request, cutoff: int): Request
  {
    if q.time <= cutoff && q.clusterId == 0 then q.(clusterId := -1) else q
  }

  function TimedOut(t: Tables, cutoff: int): Tables
  {
    t.(requests := map r | r in t.requests :: Expired(t.requests[r], cutoff))
  }

  function Without(t: Tables, c: int): Tables
  {
    t.(clusters := t.clusters - {c})
  }

  /** Request `r` may be given cluster `c` now. */
  predicate Grantable(t: Tables, r: int, c: int)
  {
    r in t.requests && c in WithStatus(t, t.requests[r].params, Ready)
    && Rank(t, r) <= |WithStatus(t, t.requests[r].params, Ready)|
  }

  function Granted(t: Tables, r: int, c: int): Tables
  {
    SetCluster(SetRequest(t, r, c), c, InUse)
  }

  lemma {:induction false} RangeSize(s: set<int>, n: nat)
    requires forall x :: x in s ==> 1 <= x <= n
    ensures |s| <= n
  {
    if n > 0 {
      RangeSize(s - {n}, n - 1);
    } else {
      assert forall x :: x !in s;
      assert s == {};
    }
  }

  /** Only waiting requests are granted: the number of Ready clusters never reaches the rank given
      to the others. */
  lemma GrantableWaits(t: Tables, r: int, c: int)
    requires IdsInRange(t) && Grantable(t, r, c)
    ensures t.requests[r].clusterId == 0
  {
    RangeSize(WithStatus(t, t.requests[r].params, Ready), t.nextCluster - 1);
  }

  /** The decision in terms of the rows alone: a cluster may be given to a request that waits if it is
      Ready and of its configuration, and if fewer requests of that configuration that wait came strictly
      earlier than there are such clusters. */
  lemma GrantableIff(t: Tables, r: int, c: int)
    requires IdsInRange(t) && r in t.requests
    ensures var p := t.requests[r].params;
      Grantable(t, r, c) <==>
        && t.requests[r].clusterId == 0
        && c in t.clusters && t.clusters[c].status == Ready && t.clusters[c].params == p
        && |set q | q in t.requests && t.requests[q].clusterId == 0 && t.requests[q].params == p
                    && t.requests[q].time < t.requests[r].time|
           < |set d | d in t.clusters && t.clusters[d].status == Ready && t.clusters[d].params == p|
  {
    var p := t.requests[r].params;
    assert Ahead(t, r) == set q | q in t.requests && t.requests[q].clusterId == 0 && t.requests[q].params == p
                                  && t.requests[q].time < t.requests[r].time;
    assert WithStatus(t, p, Ready)
        == set d | d in t.clusters && t.clusters[d].status == Ready && t.clusters[d].params == p;
    if Grantable(t, r, c) { GrantableWaits(t, r, c); }
  }

  /** What a grant writes: the request names the cluster, the cluster is In Use, and every other row and
      column is as it was. */
  lemma GrantWrites(t: Tables, r: int, c: int)
    requires r in t.requests && c in t.clusters
    ensures var u := Granted(t, r, c);
      && u.requests == t.requests[r := t.requests[r].(clusterId := c)]
      && u.clusters == t.clusters[c := t.clusters[c].(status := InUse)]
      && u.nextRequest == t.nextRequest && u.nextCluster == t.nextCluster
  {
  }

  lemma NothingIn(s: set<int>)
    ensures (forall r :: r !in s) ==> s == {}
  {
    if forall r :: r !in s { assert s == {}; }
  }

  /** An open connection to the database. */
  class DBClient {
    var clusters: map<int, Cluster>
    var requests: map<int, Request>
    var nextCluster: int
    var nextRequest: int

    function Content(): Tables
      reads this
    {
      Tables(clusters, requests, nextCluster, nextRequest)
    }

    constructor ()
      ensures Content() == Tables(map[], map[], 1, 1)
    {
      clusters, requests, nextCluster, nextRequest := map[], map[], 1, 1;
    }

    method CheckAvail(p: Params) returns (available: bool, id: int)
      ensures available <==> WithStatus(Content(), p, Ready) != {}
      ensures if available then id in WithStatus(Content(), p, Ready) else id == -1
    {
      var ready := WithStatus(Content(), p, Ready);
      if c :| c in ready {
        return true, c;
      }
      assert forall c :: c !in ready;
      assert |ready| == 0;
      return false, -1;
    }

    /** The row found by access token; tokens are unique, but the schema does not say so. */
    method GetRequest(token: string) returns (r: Option<int>)
      ensures match r
              case None => forall q :: q in requests ==> requests[q].token != token
              case Some(q) => q in requests && requests[q].token == token
    {
      var found := set q | q in requests && requests[q].token == token;
      if q :| q in found {
        return Some(q);
      }
      assert forall q :: q in requests && requests[q].token == token ==> q in found;
      r := None;
    }

    method UpdateRequest(r: int, clusterId: int)
      modifies this`requests
      ensures Content() == SetRequest(old(Content()), r, clusterId)
    {
      if r in requests {
        requests := requests[r := requests[r].(clusterId := clusterId)];
      }
    }

    method UpdateCluster(c: int, status: Status)
      modifies this`clusters
      ensures Content() == SetCluster(old(Content()), c, status)
    {
      if c in clusters {
        clusters := clusters[c := clusters[c].(status := status)];
      }
    }

    method InsertCluster(project: string, lease: nat, p: Params) returns (id: Option<int>)
      modifies this
      ensures match id
              case None => old(nextCluster) > MAX_ID && Content() == old(Content())
              case Some(c) => c == old(nextCluster) <= MAX_ID
                              && Content() == InsertedCluster(old(Content()), project, lease, p)
    {
      if nextCluster > MAX_ID {
        return None;
      }
      id := Some(nextCluster);
      clusters := clusters[nextCluster := Cluster(project, lease, WIP, p)];
      nextCluster := nextCluster + 1;
    }

    /** Succeeds if and only if this call removed the row. */
    method DeleteCluster(c: int) returns (ok: bool)
      modifies this`clusters
      ensures ok <==> c in old(clusters)
      ensures Content() == Without(old(Content()), c)
    {
      if c !in clusters {
        assert clusters - {c} == clusters;
        return false;
      }
      clusters := clusters - {c};
      ok := true;
    }

    /** Row by row: a request that waits and came no later than the cutoff is marked, every other row
        keeps its value, and no row comes or goes. */
    method ClearTimeOut(cutoff: int)
      modifies this`requests
      ensures requests.Keys == old(requests.Keys)
      ensures forall r :: r in requests ==>
        && (old(requests)[r].clusterId == 0 && old(requests)[r].time <= cutoff ==>
              requests[r].clusterId == -1 && requests[r].(clusterId := 0) == old(requests)[r])
        && (old(requests)[r].clusterId != 0 || cutoff < old(requests)[r].time ==> requests[r] == old(requests)[r])
      ensures Content() == TimedOut(old(Content()), cutoff)
    {
      var left := requests.Keys;
      while left != {}
        invariant left <= requests.Keys == old(requests.Keys)
        invariant forall r :: r in left ==> requests[r] == old(requests)[r]
        invariant forall r :: r in requests && r !in left ==> requests[r] == Expired(old(requests)[r], cutoff)
        decreases |left|
      {
        NothingIn(left);
        var r :| r in left;
        if requests[r].time <= cutoff && requests[r].clusterId == 0 {
          requests := requests[r := requests[r].(clusterId := -1)];
        }
        left := left - {r};
      }
    }

    /** `AssignCluster` (tools/dkcm/mainservice/mainservice.go), run without interference: a Ready
        cluster of the configuration is handed out if and only if the rank allows it. */
    method AssignCluster(token: string) returns (answer: Option<int>)
      requires IdsInRange(Content())
      modifies this
      ensures match answer
              case Some(c) => exists r :: r in old(requests) && old(requests)[r].token == token
                                          && Grantable(old(Content()), r, c)
                                          && Content() == Granted(old(Content()), r, c)
              case None => Content() == old(Content())
      ensures answer.None?
              && (forall q, r :: q in requests && r in requests && requests[q].token == requests[r].token ==> q == r)
              ==> forall r, c :: r in requests && requests[r].token == token ==> !Grantable(Content(), r, c)
    {
      var found := GetRequest(token);
      if found.None? {
        return None;
      }
      var r := found.value;
      var p := requests[r].params;
      var ranking := Rank(Content(), r);
      var numAvail := |WithStatus(Content(), p, Ready)|;
      var available, clusterId := CheckAvail(p);
      if available && ranking <= numAvail {
        UpdateRequest(r, clusterId);
        UpdateCluster(clusterId, InUse);
        return Some(clusterId);
      }
      answer := None;
    }
  }
}
