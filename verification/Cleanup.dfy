/**
 `BaseResourceDeleter.Delete` (tools/cleanup/cleanup.go): one goroutine a project, a counting
 semaphore, an error channel that doubles as a stop flag, and a shared 32-bit counter.

 A state holds the program counter of every worker. One step of one worker is one channel or
 atomic operation, so a schedule is a list of worker numbers and the theorems speak of all of
 them. What the deleter does for a project is fixed by `Job.outcomes`; as a worker calls it at
 most once (proved below), quantifying over all jobs covers every behaviour of the deleter.
 */
module Cleanup {
  import opened Text

  datatype Outcome = Outcome(deleted: int, error: Option<string>)

  datatype Job = Job(outcomes: seq<Outcome>, limit: nat)

  /** Where a worker stands: before the semaphore, holding it, past the stop flag and inside the
      deleter, about to report, about to give the semaphore back, finished. */
  datatype Worker = Waiting | Holding | Deleting | Counted | Leaving | Done

  datatype State = State(
    workers: seq<Worker>,
    semaphore: nat,
    errors: seq<string>,
    count: int,
    ran: seq<nat>)

  /** The value an `int32` holds after being given `x`. */
  function Wrap32(x: int): int
  {
    (x + 0x8000_0000) % 0x1_0000_0000 - 0x8000_0000
  }

  function Init(job: Job): State
  {
    State(seq(|job.outcomes|, _ => Waiting), 0, [], 0, [])
  }

  /** The next operation of worker `i` does not block. */
  predicate Enabled(job: Job, s: State, i: nat)
  {
    i < |s.workers| && i < |job.outcomes| &&
    match s.workers[i]
    case Waiting => s.semaphore < job.limit
    case Holding => true
    case Deleting => true
    case Counted => job.outcomes[i].error.None? || |s.errors| < |job.outcomes|
    case Leaving => s.semaphore > 0
    case Done => false
  }

  function Next(job: Job, s: State, i: nat): State
    requires Enabled(job, s, i)
  {
    match s.workers[i]
    case Waiting => s.(workers := s.workers[i := Holding], semaphore := s.semaphore + 1)
    case Holding => s.(workers := s.workers[i := if s.errors == [] then Deleting else Leaving])
    case Deleting => s.(workers := s.workers[i := Counted],
                        count := Wrap32(s.count + Wrap32(job.outcomes[i].deleted)),
                        ran := s.ran + [i])
    case Counted => s.(workers := s.workers[i := Leaving],
                       errors := match job.outcomes[i].error
                                 case None => s.errors
                                 case Some(e) => s.errors + [e])
    case Leaving => s.(workers := s.workers[i := Done], semaphore := s.semaphore - 1)
  }

  /** `picks` is a schedule: each picked worker can move when it is picked. */
  ghost predicate Runs(job: Job, s: State, picks: seq<nat>)
    decreases |picks|
  {
    picks == [] || (Enabled(job, s, picks[0]) && Runs(job, Next(job, s, picks[0]), picks[1..]))
  }

  ghost function Exec(job: Job, s: State, picks: seq<nat>): State
    requires Runs(job, s, picks)
    decreases |picks|
  {
    if picks == [] then s else Exec(job, Next(job, s, picks[0]), picks[1..])
  }

  ghost predicate Finished(s: State)
  {
    forall i :: 0 <= i < |s.workers| ==> s.workers[i].Done?
  }

  // ----- Counting workers ----------------------------------------------------------------

  /** Holds a slot of the semaphore. */
  predicate InSlot(w: Worker) { w.Holding? || w.Deleting? || w.Counted? || w.Leaving? }

  /** Past the stop flag and still running. */
  predicate Active(w: Worker) { w.Deleting? || w.Counted? }

  predicate PastReport(w: Worker) { w.Leaving? || w.Done? }

  ghost function Tally(ws: seq<Worker>, p: Worker -> bool): (n: nat)
    ensures n <= |ws|
  {
    if ws == [] then 0 else (if p(ws[0]) then 1 else 0) + Tally(ws[1..], p)
  }

  lemma {:induction false} TallyUpdate(ws: seq<Worker>, p: Worker -> bool, i: nat, w: Worker)
    requires i < |ws|
    ensures Tally(ws[i := w], p) == Tally(ws, p) - (if p(ws[i]) then 1 else 0) + (if p(w) then 1 else 0)
  {
    if i == 0 {
      assert ws[0 := w][1..] == ws[1..];
    } else {
      assert ws[i := w][1..] == ws[1..][i - 1 := w];
      TallyUpdate(ws[1..], p, i - 1, w);
    }
  }

  lemma {:induction false} TallyMonotone(ws: seq<Worker>, p: Worker -> bool, q: Worker -> bool)
    requires forall w :: p(w) ==> q(w)
    ensures Tally(ws, p) <= Tally(ws, q)
  {
    if ws != [] {
      TallyMonotone(ws[1..], p, q);
    }
  }

  lemma {:induction false} TallyZero(ws: seq<Worker>, p: Worker -> bool)
    ensures Tally(ws, p) == 0 <==> forall i :: 0 <= i < |ws| ==> !p(ws[i])
  {
    if ws != [] {
      TallyZero(ws[1..], p);
      assert ws == [ws[0]] + ws[1..];
    }
  }

  lemma {:induction false} TallyNotAll(ws: seq<Worker>, p: Worker -> bool, i: nat)
    requires i < |ws| && !p(ws[i])
    ensures Tally(ws, p) < |ws|
  {
    if i > 0 {
      TallyNotAll(ws[1..], p, i - 1);
    }
  }

  // ----- The invariant of every schedule -------------------------------------------------

  ghost function SumDeleted(job: Job, ran: seq<nat>): int
    requires forall k :: 0 <= k < |ran| ==> ran[k] < |job.outcomes|
  {
    if ran == [] then 0
    else SumDeleted(job, ran[..|ran|-1]) + job.outcomes[ran[|ran|-1]].deleted
  }

  /** Project `i` was processed and its error has been sent. */
  ghost predicate Raised(job: Job, s: State, i: nat, e: string)
  {
    i < |s.workers| && i < |job.outcomes| && i in s.ran && PastReport(s.workers[i]) &&
    job.outcomes[i].error == Some(e)
  }

  /** The semaphore counts its holders, and the stop flag bounds what is still in flight. */
  ghost predicate SlotInv(job: Job, s: State)
  {
    && |s.workers| == |job.outcomes|
    && s.semaphore == Tally(s.workers, InSlot) <= job.limit
    && |s.errors| <= Tally(s.workers, PastReport)
    && (s.errors != [] ==> |s.errors| + Tally(s.workers, Active) <= job.limit)
  }

  /** Who ran. */
  ghost predicate RanInv(job: Job, s: State)
  {
    && |s.workers| == |job.outcomes|
    && (forall k :: 0 <= k < |s.ran| ==> s.ran[k] < |job.outcomes|)
    && Distinct(s.ran)
    && (forall i :: i in s.ran ==> s.workers[i].Counted? || PastReport(s.workers[i]))
    && (forall i :: 0 <= i < |s.workers| && s.workers[i].Counted? ==> i in s.ran)
    && (s.errors == [] ==>
          forall i :: 0 <= i < |s.workers| && PastReport(s.workers[i]) ==> i in s.ran)
  }

  /** What was counted, and which errors were sent. */
  ghost predicate LogInv(job: Job, s: State)
  {
    && RanInv(job, s)
    && s.count == Wrap32(SumDeleted(job, s.ran))
    && (forall e :: e in s.errors <==> exists i: nat :: Raised(job, s, i, e))
  }

  lemma InitInv(job: Job)
    ensures SlotInv(job, Init(job)) && LogInv(job, Init(job))
  {
    var s := Init(job);
    TallyZero(s.workers, InSlot);
  }

  lemma SlotStep(job: Job, s: State, i: nat)
    requires SlotInv(job, s) && Enabled(job, s, i)
    ensures SlotInv(job, Next(job, s, i))
  {
    var w := Next(job, s, i).workers[i];
    TallyUpdate(s.workers, InSlot, i, w);
    TallyUpdate(s.workers, Active, i, w);
    TallyUpdate(s.workers, PastReport, i, w);
    TallyMonotone(s.workers, Active, InSlot);
  }

  lemma RanStep(job: Job, s: State, i: nat)
    requires RanInv(job, s) && Enabled(job, s, i)
    ensures RanInv(job, Next(job, s, i))
  {
    var t := Next(job, s, i);
    if s.workers[i].Deleting? {
      assert forall j :: j in t.ran <==> j in s.ran || j == i;
    } else {
      assert t.ran == s.ran;
    }
  }

  lemma CountStep(job: Job, s: State, i: nat)
    requires RanInv(job, s) && Enabled(job, s, i) && RanInv(job, Next(job, s, i))
    requires s.count == Wrap32(SumDeleted(job, s.ran))
    ensures Next(job, s, i).count == Wrap32(SumDeleted(job, Next(job, s, i).ran))
  {
    var t := Next(job, s, i);
    if s.workers[i].Deleting? {
      assert t.ran[..|t.ran|-1] == s.ran;
    }
  }

  lemma RaisedStep(job: Job, s: State, i: nat, e: string)
    requires LogInv(job, s) && Enabled(job, s, i)
    ensures e in Next(job, s, i).errors <==> exists j: nat :: Raised(job, Next(job, s, i), j, e)
  {
    var t := Next(job, s, i);
    if j: nat :| Raised(job, s, j, e) {
      assert Raised(job, t, j, e);
    }
    if s.workers[i].Counted? && job.outcomes[i].error == Some(e) {
      assert Raised(job, t, i, e);
    } else if j: nat :| Raised(job, t, j, e) {
      assert Raised(job, s, j, e);
    }
  }

  lemma LogStep(job: Job, s: State, i: nat)
    requires LogInv(job, s) && Enabled(job, s, i)
    ensures LogInv(job, Next(job, s, i))
  {
    RanStep(job, s, i);
    CountStep(job, s, i);
    forall e ensures e in Next(job, s, i).errors <==> exists j: nat :: Raised(job, Next(job, s, i), j, e) {
      RaisedStep(job, s, i, e);
    }
  }

  lemma {:induction false} ExecInv(job: Job, s: State, picks: seq<nat>)
    requires SlotInv(job, s) && LogInv(job, s) && Runs(job, s, picks)
    ensures SlotInv(job, Exec(job, s, picks)) && LogInv(job, Exec(job, s, picks))
    decreases |picks|
  {
    if picks != [] {
      SlotStep(job, s, picks[0]);
      LogStep(job, s, picks[0]);
      ExecInv(job, Next(job, s, picks[0]), picks[1..]);
    }
  }

  // ----- Main results --------------------------------------------------------------------

  /** At every moment of every schedule at most `limit` workers hold the semaphore, and once one
      error exists, errors sent and deleters in flight together stay within `limit`. */
  lemma ErrorsStayWithinLimit(job: Job, picks: seq<nat>)
    requires Runs(job, Init(job), picks)
    ensures var s := Exec(job, Init(job), picks);
            && Tally(s.workers, InSlot) == s.semaphore <= job.limit
            && |s.errors| <= job.limit
            && (s.errors != [] ==> |s.errors| + Tally(s.workers, Active) <= job.limit)
  {
    InitInv(job);
    ExecInv(job, Init(job), picks);
  }

  /** Steps still ahead of a worker, at most. */
  function StepsLeft(w: Worker): nat
  {
    match w
    case Waiting => 5
    case Holding => 4
    case Deleting => 3
    case Counted => 2
    case Leaving => 1
    case Done => 0
  }

  ghost function Rank(ws: seq<Worker>): nat
  {
    if ws == [] then 0 else StepsLeft(ws[0]) + Rank(ws[1..])
  }

  lemma {:induction false} RankUpdate(ws: seq<Worker>, i: nat, w: Worker)
    requires i < |ws|
    ensures Rank(ws[i := w]) == Rank(ws) - StepsLeft(ws[i]) + StepsLeft(w)
  {
    if i == 0 {
      assert ws[0 := w][1..] == ws[1..];
    } else {
      assert ws[i := w][1..] == ws[1..][i - 1 := w];
      RankUpdate(ws[1..], i - 1, w);
    }
  }

  lemma {:induction false} RankInit(n: nat)
    ensures Rank(seq(n, _ => Waiting)) == 5 * n
  {
    if n > 0 {
      assert seq(n, _ => Waiting)[1..] == seq(n - 1, _ => Waiting);
      RankInit(n - 1);
    }
  }

  lemma {:induction false} ScheduleLength(job: Job, s: State, picks: seq<nat>)
    requires Runs(job, s, picks) && |s.workers| == |job.outcomes|
    ensures |picks| + Rank(Exec(job, s, picks).workers) <= Rank(s.workers)
    decreases |picks|
  {
    if picks != [] {
      var t := Next(job, s, picks[0]);
      RankUpdate(s.workers, picks[0], t.workers[picks[0]]);
      ScheduleLength(job, t, picks[1..]);
    }
  }

  /** No worker is ever stuck: whatever happened so far, a state in which no worker can move is
      one in which all of them are done. Holds exactly when a slot exists or nothing is to do. */
  lemma Progress(job: Job, picks: seq<nat>)
    requires Runs(job, Init(job), picks)
    requires job.limit > 0 || job.outcomes == []
    ensures var s := Exec(job, Init(job), picks);
            Finished(s) || exists i :: Enabled(job, s, i)
  {
    InitInv(job);
    ExecInv(job, Init(job), picks);
    ProgressInv(job, Exec(job, Init(job), picks));
  }

  lemma ProgressInv(job: Job, s: State)
    requires SlotInv(job, s)
    requires job.limit > 0 || job.outcomes == []
    ensures Finished(s) || exists i :: Enabled(job, s, i)
  {
    if !Finished(s) {
      TallyZero(s.workers, InSlot);
      if i :| 0 <= i < |s.workers| && InSlot(s.workers[i]) {
        if s.workers[i].Counted? {
          TallyNotAll(s.workers, PastReport, i);
        }
        assert Enabled(job, s, i);
      } else {
        var j :| 0 <= j < |s.workers| && !s.workers[j].Done?;
        assert Enabled(job, s, j);
      }
    }
  }

  lemma NoSlotDeadlock(job: Job, picks: seq<nat>)
    requires Runs(job, Init(job), picks) && job.limit == 0 && job.outcomes != []
    ensures picks == [] && !Finished(Init(job)) && forall i :: !Enabled(job, Init(job), i)
  {
    assert Init(job).workers[0].Waiting?;
  }

  /** Every schedule ends: it has at most five steps a project. */
  lemma EveryScheduleEnds(job: Job, picks: seq<nat>)
    requires Runs(job, Init(job), picks)
    ensures |picks| <= 5 * |job.outcomes|
  {
    RankInit(|job.outcomes|);
    ScheduleLength(job, Init(job), picks);
  }

  /** What a finished run leaves, however its workers were interleaved: no project was processed
      twice, the count is the sum over those processed, the errors are exactly theirs, and there
      are none only if every project was processed and succeeded. */
  ghost predicate Result(job: Job, ran: seq<nat>, count: int, errors: seq<string>)
  {
    && (forall k :: 0 <= k < |ran| ==> ran[k] < |job.outcomes|)
    && Distinct(ran)
    && -0x8000_0000 <= count < 0x8000_0000 && (count - SumDeleted(job, ran)) % 0x1_0000_0000 == 0
    && (forall e :: e in errors <==> exists i :: i in ran && job.outcomes[i].error == Some(e))
    && (errors == [] <==>
        forall i :: 0 <= i < |job.outcomes| ==> i in ran && job.outcomes[i].error.None?)
  }

  /** The 32-bit value is the number itself where it fits, and else differs from it by multiples of 2^32. */
  lemma WrapIs(x: int)
    ensures -0x8000_0000 <= Wrap32(x) < 0x8000_0000 && (Wrap32(x) - x) % 0x1_0000_0000 == 0
    ensures -0x8000_0000 <= x < 0x8000_0000 ==> Wrap32(x) == x
  {
  }

  /** The count is exact as long as no 32-bit number is too small for it. */
  lemma CountIsSum(job: Job, ran: seq<nat>, count: int, errors: seq<string>)
    requires Result(job, ran, count, errors)
    ensures -0x8000_0000 <= SumDeleted(job, ran) < 0x8000_0000 <==> count == SumDeleted(job, ran)
  {
    hide Distinct;
  }

  lemma FinishedResult(job: Job, s: State)
    requires LogInv(job, s) && Finished(s)
    ensures Result(job, s.ran, s.count, s.errors)
  {
    WrapIs(SumDeleted(job, s.ran));
    hide Wrap32;
    forall e ensures e in s.errors <==> exists i :: i in s.ran && job.outcomes[i].error == Some(e) {
      if i :| i in s.ran && job.outcomes[i].error == Some(e) {
        assert Raised(job, s, i, e);
      }
      if i: nat :| Raised(job, s, i, e) {
        assert i in s.ran && job.outcomes[i].error == Some(e);
      }
    }
    forall i | 0 <= i < |job.outcomes| && i in s.ran && job.outcomes[i].error.Some?
      ensures job.outcomes[i].error.value in s.errors
    {
      assert Raised(job, s, i, job.outcomes[i].error.value);
    }
    if s.errors == [] {
      assert forall i :: 0 <= i < |s.workers| ==> PastReport(s.workers[i]);
    } else {
      assert s.errors[0] in s.errors;
    }
  }

  lemma EveryScheduleResult(job: Job, picks: seq<nat>)
    requires Runs(job, Init(job), picks) && Finished(Exec(job, Init(job), picks))
    ensures var s := Exec(job, Init(job), picks); Result(job, s.ran, s.count, s.errors)
  {
    InitInv(job);
    ExecInv(job, Init(job), picks);
    FinishedResult(job, Exec(job, Init(job), picks));
  }

  // ----- The bound is reached ------------------------------------------------------------

  lemma {:induction false} RunsAppend(job: Job, s: State, picks: seq<nat>, i: nat)
    requires Runs(job, s, picks) && Enabled(job, Exec(job, s, picks), i)
    ensures Runs(job, s, picks + [i])
    ensures Exec(job, s, picks + [i]) == Next(job, Exec(job, s, picks), i)
    decreases |picks|
  {
    if picks == [] {
      assert (picks + [i])[1..] == [];
    } else {
      assert (picks + [i])[1..] == picks[1..] + [i];
      RunsAppend(job, Next(job, s, picks[0]), picks[1..], i);
    }
  }

  const STAGES := [Waiting, Holding, Deleting, Counted, Leaving]

  /** The first `m` of the first `limit` workers are one stage ahead of the others. */
  ghost predicate Abreast(job: Job, s: State, stage: nat, m: nat)
    requires stage < 4
  {
    && |s.workers| == |job.outcomes|
    && (forall k :: 0 <= k < |s.workers| ==>
          s.workers[k] == if k < m then STAGES[stage + 1] else if k < job.limit then STAGES[stage] else Waiting)
    && s.semaphore == (if stage == 0 then m else job.limit)
    && |s.errors| == (if stage == 3 then m else 0)
  }

  lemma {:induction false} Advance(job: Job, stage: nat, m: nat) returns (picks: seq<nat>)
    requires job.limit <= |job.outcomes| && stage < 4 && m <= job.limit
    requires forall i :: 0 <= i < job.limit ==> job.outcomes[i].error.Some?
    ensures Runs(job, Init(job), picks) && Abreast(job, Exec(job, Init(job), picks), stage, m)
    decreases stage, m
  {
    if m > 0 {
      picks := Advance(job, stage, m - 1);
      RunsAppend(job, Init(job), picks, m - 1);
      picks := picks + [m - 1];
    } else if stage > 0 {
      picks := Advance(job, stage - 1, job.limit);
    } else {
      picks := [];
    }
  }

  /** `limit` errors do occur: when the first `limit` deleters fail and all of them passed the stop
      flag before the first of them reported. */
  lemma LimitErrorsReached(job: Job)
    requires job.limit <= |job.outcomes|
    requires forall i :: 0 <= i < job.limit ==> job.outcomes[i].error.Some?
    ensures exists picks :: Runs(job, Init(job), picks) && |Exec(job, Init(job), picks).errors| == job.limit
  {
    var picks := Advance(job, 3, job.limit);
  }

  // ----- The function itself -------------------------------------------------------------

  /** Lines 319-332: drop repeated messages, then sort. */
  method Collect(errors: seq<string>) returns (errStrings: seq<string>)
    ensures StrictlyAscending(errStrings)
    ensures Elements(errStrings) == Elements(errors)
    ensures |errStrings| <= |errors|
  {
    errStrings := [];
    for k := 0 to |errors|
      invariant Distinct(errStrings) && |errStrings| <= k
      invariant Elements(errStrings) == Elements(errors[..k])
    {
      var e := errors[k];
      assert errors[..k + 1] == errors[..k] + [e];
      var unique := true;
      for j := 0 to |errStrings|
        invariant unique <==> e !in errStrings[..j]
      {
        if errStrings[j] == e {
          unique := false;
          break;
        }
      }
      assert errStrings[..|errStrings|] == errStrings;
      assert unique <==> e !in errStrings;
      assert Elements(errors[..k + 1]) == Elements(errors[..k]) + {e};
      if unique {
        assert Elements(errStrings + [e]) == Elements(errStrings) + {e};
        errStrings := errStrings + [e];
      }
    }
    assert errors[..|errors|] == errors;
    MultisetDistinct(errStrings, Sort(errStrings));
    AscendingDistinctIsStrict(Sort(errStrings));
    errStrings := Sort(errStrings);
  }

  lemma SameErrors(job: Job, ran: seq<nat>, count: int, errors: seq<string>, errStrings: seq<string>)
    requires Result(job, ran, count, errors) && Elements(errStrings) == Elements(errors)
    ensures Result(job, ran, count, errStrings)
  {
    EmptyElements(errors);
    EmptyElements(errStrings);
    assert forall e :: e in errStrings <==> e in Elements(errStrings);
    assert forall e :: e in errors <==> e in Elements(errors);
  }

  /** `Delete`: any worker that can move may move next, until all are done. */
  method Delete(job: Job) returns (count: int, errStrings: seq<string>)
    requires job.limit > 0 || job.outcomes == []
    ensures exists ran :: Result(job, ran, count, errStrings)
    ensures StrictlyAscending(errStrings) && |errStrings| <= job.limit
  {
    hide LogInv, Result;
    var s := Init(job);
    InitInv(job);
    while exists i :: 0 <= i < |s.workers| && !s.workers[i].Done?
      invariant SlotInv(job, s) && LogInv(job, s)
      decreases Rank(s.workers)
    {
      ProgressInv(job, s);
      var i :| 0 <= i < |s.workers| && Enabled(job, s, i);
      SlotStep(job, s, i);
      LogStep(job, s, i);
      RankUpdate(s.workers, i, Next(job, s, i).workers[i]);
      s := Next(job, s, i);
    }
    FinishedResult(job, s);
    count := s.count;
    errStrings := Collect(s.errors);
    SameErrors(job, s.ran, count, s.errors, errStrings);
  }
}
