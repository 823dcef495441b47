/**
 Listing all pages of a GitHub collection with retries (pkg/ghutil/client.go).
 */
module Depaginate {

  /** What one call may come back with. */
  datatype Outcome = Ok | RateLimit | Failure

  /** The outcomes of all calls to come, by number. */
  type Script = nat -> Outcome

  function Concat<T>(pages: seq<seq<T>>): seq<T>
  {
    if pages == [] then [] else Concat(pages[..|pages|-1]) + pages[|pages|-1]
  }

  /** One retried call, the first of its tries being number `at`: whether it succeeds, and the number
      of the next call. */
  function Retried(script: Script, at: nat, tries: nat): (r: (bool, nat))
    ensures at <= r.1 <= at + tries
    decreases tries
  {
    if tries == 0 then (false, at)
    else
      match script(at)
      case Ok => (true, at + 1)
      case Failure => (false, at + 1)
      case RateLimit => Retried(script, at + 1, tries - 1)
  }

  /** How many of `count` pages are fetched, and the number of the next call. */
  function Fetched(script: Script, at: nat, tries: nat, count: nat): (r: (nat, nat))
    ensures r.0 <= count && at <= r.1 <= at + tries * count
    decreases count
  {
    if count == 0 then (0, at)
    else
      var (ok, next) := Retried(script, at, tries);
      if !ok then (0, next)
      else
        var rest := Fetched(script, next, tries, count - 1);
        (rest.0 + 1, rest.1)
  }

  /** A collection behind the API. Every page names the last one; the last page itself may leave
      that out. */
  class Server<T> {
    const pages: seq<seq<T>>
    const reported: nat -> nat
    const script: Script
    var calls: nat

    constructor (pages: seq<seq<T>>, reported: nat -> nat, script: Script)
      ensures this.pages == pages && this.reported == reported && this.script == script && calls == 0
    {
      this.pages, this.reported, this.script, calls := pages, reported, script, 0;
    }

    ghost predicate Valid()
    {
      && |pages| > 0
      && (forall k :: 1 <= k <= |pages| ==> reported(k) == |pages| || (k == |pages| && reported(k) == 0))
    }

    method List(page: nat) returns (outcome: Outcome, items: seq<T>, lastPage: nat)
      requires 1 <= page <= |pages|
      modifies this
      ensures calls == old(calls) + 1 && outcome == script(old(calls))
      ensures outcome.Ok? ==> items == pages[page - 1] && lastPage == reported(page)
    {
      outcome, items, lastPage := script(calls), [], 0;
      if outcome.Ok? {
        items, lastPage := pages[page - 1], reported(page);
      }
      calls := calls + 1;
    }
  }

  /** One listing: the options passed to every call, and the items its wrapper collects. */
  class Listing<T> {
    const server: Server<T>
    var page: nat
    var perPage: nat
    var allItems: seq<T>

    constructor (server: Server<T>)
      ensures this.server == server && allItems == []
    {
      this.server, page, perPage, allItems := server, 0, 0, [];
    }

    /** The call, with the items of a success appended. */
    method Wrapper() returns (outcome: Outcome, lastPage: nat)
      requires 1 <= page <= |server.pages|
      modifies server, this`allItems
      ensures server.calls == old(server.calls) + 1 && outcome == server.script(old(server.calls))
      ensures allItems == if outcome.Ok? then old(allItems) + server.pages[page - 1] else old(allItems)
      ensures outcome.Ok? ==> lastPage == server.reported(page)
    {
      var items;
      outcome, items, lastPage := server.List(page);
      if outcome.Ok? {
        allItems := allItems + items;
      }
    }

    /** `retry`. */
    method Retry(maxRetries: nat) returns (ok: bool, lastPage: nat)
      requires 1 <= page <= |server.pages|
      modifies server, this`allItems
      ensures (ok, server.calls) == Retried(server.script, old(server.calls), maxRetries + 1)
      ensures allItems == if ok then old(allItems) + server.pages[page - 1] else old(allItems)
      ensures ok ==> lastPage == server.reported(page)
    {
      ok, lastPage := false, 0;
      var retryCount := 0;
      while retryCount <= maxRetries
        invariant retryCount <= maxRetries + 1 && allItems == old(allItems)
        invariant Retried(server.script, old(server.calls), maxRetries + 1)
               == Retried(server.script, server.calls, maxRetries + 1 - retryCount)
      {
        var outcome;
        outcome, lastPage := Wrapper();
        match outcome {
          case Ok => return true, lastPage;
          case Failure => return false, lastPage;
          case RateLimit =>
        }
        retryCount := retryCount + 1;
      }
    }

    /** `depaginate`: it stops at the first page that cannot be fetched. */
    method Depaginate(maxRetries: nat) returns (ok: bool)
      requires server.Valid()
      modifies server, this
      ensures var f := Fetched(server.script, old(server.calls), maxRetries + 1, |server.pages|);
        && ok == (f.0 == |server.pages|) && server.calls == f.1
        && allItems == Concat(server.pages[..f.0])
    {
      hide Retried, Fetched, Concat, Reached;
      allItems := [];
      page := 1;
      perPage := 100;
      var lastPage := 1;
      ghost var count, tries, start := |server.pages|, maxRetries + 1, server.calls;
      ConcatEmpty(server.pages[..0]);
      NothingReached(server.script, start, tries, count);
      while page <= lastPage
        invariant 1 <= page <= count + 1 && lastPage == (if page == 1 then 1 else count)
        invariant allItems == Concat(server.pages[..page - 1])
        invariant Reached(server.script, start, server.calls, tries, count, page - 1)
        decreases count + 1 - page
      {
        ReachedNext(server.script, start, server.calls, tries, count, page - 1);
        ConcatStep(server.pages, page);
        var fetched, reported := Retry(maxRetries);
        if !fetched {
          return false;
        }
        if reported > 0 {
          lastPage := reported;
        }
        page := page + 1;
      }
      AllReached(server.script, start, server.calls, tries, count);
      ok := true;
    }
  }

  /** After `done` pages the next call is number `now`, and what remains is fetched from there. */
  ghost predicate Reached(script: Script, start: nat, now: nat, tries: nat, count: nat, done: nat)
  {
    done <= count && Fetched(script, start, tries, count) == Plus(Fetched(script, now, tries, count - done), done)
  }

  lemma NothingReached(script: Script, start: nat, tries: nat, count: nat)
    ensures Reached(script, start, start, tries, count, 0)
  {
    hide Fetched;
  }

  lemma ReachedNext(script: Script, start: nat, now: nat, tries: nat, count: nat, done: nat)
    requires Reached(script, start, now, tries, count, done) && done < count
    ensures var (ok, next) := Retried(script, now, tries);
      if ok then Reached(script, start, next, tries, count, done + 1)
      else Fetched(script, start, tries, count) == (done, next)
  {
    hide Fetched, Retried;
    FetchedStep(script, now, tries, count - done);
  }

  lemma AllReached(script: Script, start: nat, now: nat, tries: nat, count: nat)
    requires Reached(script, start, now, tries, count, count)
    ensures Fetched(script, start, tries, count) == (count, now)
  {
    hide Fetched;
    FetchedNone(script, now, tries);
  }

  ghost function Plus(f: (nat, nat), k: nat): (nat, nat)
  {
    (f.0 + k, f.1)
  }

  lemma ConcatEmpty<T>(pages: seq<seq<T>>)
    requires pages == []
    ensures Concat(pages) == []
  {
  }

  lemma ConcatStep<T>(pages: seq<seq<T>>, page: nat)
    requires 1 <= page <= |pages|
    ensures Concat(pages[..page]) == Concat(pages[..page - 1]) + pages[page - 1]
  {
    assert pages[..page][..page - 1] == pages[..page - 1];
  }

  lemma FetchedStep(script: Script, at: nat, tries: nat, count: nat)
    requires count > 0
    ensures var (ok, next) := Retried(script, at, tries);
      Fetched(script, at, tries, count) == if ok then Plus(Fetched(script, next, tries, count - 1), 1) else (0, next)
  {
  }

  lemma FetchedNone(script: Script, at: nat, tries: nat)
    ensures Fetched(script, at, tries, 0) == (0, at)
  {
  }

  // ----- When all pages are fetched ------------------------------------------------------

  /** The successes among the calls from number `at` to before number `n`. */
  function Successes(script: Script, at: nat, n: nat): nat
    requires at <= n
    decreases n - at
  {
    if at == n then 0 else (if script(at).Ok? then 1 else 0) + Successes(script, at + 1, n)
  }

  /** Among these calls none fails, and never does the rate limit strike more than `maxRetries` times
      in a row. */
  ghost predicate Smooth(script: Script, at: nat, n: nat, maxRetries: nat)
  {
    && (forall i :: at <= i < n ==> script(i) != Failure)
    && (forall i :: at <= i && i + maxRetries < n ==> BreaksWithin(script, i, maxRetries))
  }

  ghost predicate BreaksWithin(script: Script, i: nat, maxRetries: nat)
  {
    exists j :: i <= j <= i + maxRetries && script(j) != RateLimit
  }

  lemma {:induction false} RetriedIs(script: Script, at: nat, tries: nat, j: nat)
    requires at <= j && forall i :: at <= i < j ==> script(i) == RateLimit
    requires script(j) == Ok
    ensures Retried(script, at, tries) == if j < at + tries then (true, j + 1) else (false, at + tries)
    decreases tries
  {
    if tries > 0 && at < j { RetriedIs(script, at + 1, tries - 1, j); }
  }

  lemma {:induction false} RetriedWhere(script: Script, at: nat, tries: nat) returns (j: nat)
    requires Retried(script, at, tries).0
    ensures at <= j < at + tries && script(j) == Ok && forall i :: at <= i < j ==> script(i) == RateLimit
    ensures Retried(script, at, tries).1 == j + 1
    decreases tries
  {
    if script(at) == Ok {
      j := at;
    } else {
      j := RetriedWhere(script, at + 1, tries - 1);
    }
  }

  lemma {:induction false} SuccessesSkip(script: Script, at: nat, j: nat, n: nat)
    requires at <= j <= n && forall i :: at <= i < j ==> script(i) == RateLimit
    ensures Successes(script, at, n) == Successes(script, j, n)
    decreases j - at
  {
    if at < j { SuccessesSkip(script, at + 1, j, n); }
  }

  lemma {:induction false} FirstSuccess(script: Script, at: nat, n: nat, maxRetries: nat) returns (j: nat)
    requires at <= n && Successes(script, at, n) > 0 && forall i :: at <= i < n ==> script(i) != Failure
    ensures at <= j < n && script(j) == Ok && forall i :: at <= i < j ==> script(i) == RateLimit
    decreases n - at
  {
    if script(at) == Ok {
      j := at;
    } else {
      j := FirstSuccess(script, at + 1, n, maxRetries);
    }
  }

  lemma {:induction false} FetchesAll(script: Script, at: nat, n: nat, maxRetries: nat, count: nat)
    requires at <= n && Successes(script, at, n) == count && Smooth(script, at, n, maxRetries)
    ensures Fetched(script, at, maxRetries + 1, count).0 == count
    decreases count
  {
    if count > 0 {
      var j := FirstSuccess(script, at, n, maxRetries);
      if at + maxRetries < n {
        assert BreaksWithin(script, at, maxRetries);
      }
      RetriedIs(script, at, maxRetries + 1, j);
      SuccessesSkip(script, at, j, n);
      FetchesAll(script, j + 1, n, maxRetries, count - 1);
    }
  }

  lemma {:induction false} AllFetched(script: Script, at: nat, maxRetries: nat, count: nat) returns (n: nat)
    requires Fetched(script, at, maxRetries + 1, count).0 == count
    ensures at <= n && Successes(script, at, n) == count && Smooth(script, at, n, maxRetries)
    decreases count
  {
    if count == 0 {
      n := at;
    } else {
      var j := RetriedWhere(script, at, maxRetries + 1);
      n := AllFetched(script, j + 1, maxRetries, count - 1);
      SuccessesSkip(script, at, j, n);
      forall i | at <= i && i + maxRetries < n ensures BreaksWithin(script, i, maxRetries) {
        if i <= j { assert script(j) != RateLimit; }
      }
    }
  }

  /** A listing of `count` pages succeeds exactly if the calls start with `count` successes, no failure
      among them, and no more than `maxRetries` rate limits in a row. */
  lemma SucceedsIff(script: Script, at: nat, maxRetries: nat, count: nat)
    ensures Fetched(script, at, maxRetries + 1, count).0 == count
       <==> exists n: nat :: at <= n && Successes(script, at, n) == count && Smooth(script, at, n, maxRetries)
  {
    hide Fetched, Smooth, Successes;
    if Fetched(script, at, maxRetries + 1, count).0 == count {
      var n := AllFetched(script, at, maxRetries, count);
    }
    if n: nat :| at <= n && Successes(script, at, n) == count && Smooth(script, at, n, maxRetries) {
      FetchesAll(script, at, n, maxRetries, count);
    }
  }

  // ----- Nothing lost, nothing twice -----------------------------------------------------

  lemma {:induction false} ConcatLength<T>(pages: seq<seq<T>>, k: nat, i: nat)
    requires k < |pages| && i < |pages[k]|
    ensures |Concat(pages[..k])| + i < |Concat(pages)|
    ensures Concat(pages)[|Concat(pages[..k])| + i] == pages[k][i]
    decreases |pages|
  {
    var front := pages[..|pages|-1];
    if k < |front| {
      ConcatLength(front, k, i);
      assert front[..k] == pages[..k];
    }
  }

  lemma {:induction false} ConcatPrefix<T>(pages: seq<seq<T>>, k: nat)
    requires k <= |pages|
    ensures Concat(pages[..k]) <= Concat(pages)
    decreases |pages|
  {
    if k == |pages| {
      assert pages[..k] == pages;
    } else {
      var front := pages[..|pages|-1];
      ConcatPrefix(front, k);
      assert front[..k] == pages[..k];
    }
  }

  /** Whatever the outcomes: the items collected are whole pages from the first on, a prefix of the
      collection, all of it exactly on success, and no page takes more than `maxRetries + 1`
      calls. */
  lemma CollectsPrefix<T>(pages: seq<seq<T>>, script: Script, at: nat, maxRetries: nat)
    ensures var f := Fetched(script, at, maxRetries + 1, |pages|);
      && Concat(pages[..f.0]) <= Concat(pages)
      && (f.0 == |pages| ==> Concat(pages[..f.0]) == Concat(pages))
      && f.1 - at <= (maxRetries + 1) * (if f.0 < |pages| then f.0 + 1 else f.0)
  {
    var f := Fetched(script, at, maxRetries + 1, |pages|);
    ConcatPrefix(pages, f.0);
    if f.0 == |pages| { assert pages[..f.0] == pages; }
    CallsBound(script, at, maxRetries + 1, |pages|);
  }

  lemma {:induction false} CallsBound(script: Script, at: nat, tries: nat, count: nat)
    ensures var f := Fetched(script, at, tries, count);
      f.1 - at <= tries * (if f.0 < count then f.0 + 1 else f.0)
    decreases count
  {
    if count > 0 {
      var (ok, next) := Retried(script, at, tries);
      if ok {
        CallsBound(script, next, tries, count - 1);
        var rest := Fetched(script, next, tries, count - 1);
        var k := if rest.0 < count - 1 then rest.0 + 1 else rest.0;
        assert tries * (k + 1) == tries * k + tries;
      }
    }
  }
}
