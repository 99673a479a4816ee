/** `async_invoke` with a handler that is bound to a single-threaded executor: jobs run on the
    threads of a pool, their handlers on the executor, and a work guard keeps the executor
    running until the handler has been passed to it. */
module AsyncInvoke {

  /** Where the function object posted to the pool is. It owns the work guard, which is
      released when it is destroyed. */
  datatype InPool<R> =
    | Posted
    | Computed(result: R)   // the job has run, its handler is not yet dispatched
    | Dispatched            // the handler was handed to the executor
    | Destroyed

  datatype Handler<R> = NotYet | Queued(argument: R) | Ran(argument: R)

  datatype Job<R> = Job(inPool: InPool<R>, handler: Handler<R>)

  /** `work` is the executor's count of outstanding work: guards and queued handlers. */
  datatype State<R> = State(jobs: seq<Job<R>>, work: int, returned: bool)

  datatype Event =
    | Compute(i: nat)      // a pool thread runs the job
    | Dispatch(i: nat)     // the pool thread dispatches the handler to the executor
    | Destroy(i: nat)      // the pool thread destroys the function object and its guard
    | RunHandler(i: nat)   // the executor runs a queued handler
    | RunReturns           // `run` finds no outstanding work and returns

  /** `n` jobs were submitted, each with or without a work guard, then `run` was called. */
  function Submitted<R>(n: nat, guarded: bool): State<R> {
    State(seq(n, _ => Job(Posted, NotYet)), if guarded then n else 0, false)
  }

  predicate Enabled<R>(s: State<R>, e: Event) {
    match e
    case Compute(i) => i < |s.jobs| && s.jobs[i].inPool.Posted?
    case Dispatch(i) => i < |s.jobs| && s.jobs[i].inPool.Computed?
    case Destroy(i) => i < |s.jobs| && s.jobs[i].inPool.Dispatched?
    case RunHandler(i) => i < |s.jobs| && s.jobs[i].handler.Queued? && !s.returned
    case RunReturns => s.work == 0 && !s.returned
  }

  function Step<R>(f: nat -> R, s: State<R>, e: Event): State<R>
    requires Enabled(s, e)
  {
    match e
    case Compute(i) => s.(jobs := s.jobs[i := s.jobs[i].(inPool := Computed(f(i)))])
    case Dispatch(i) =>
      s.(jobs := s.jobs[i := Job(Dispatched, Queued(s.jobs[i].inPool.result))], work := s.work + 1)
    case Destroy(i) => s.(jobs := s.jobs[i := s.jobs[i].(inPool := Destroyed)], work := s.work - 1)
    case RunHandler(i) =>
      s.(jobs := s.jobs[i := s.jobs[i].(handler := Ran(s.jobs[i].handler.argument))], work := s.work - 1)
    case RunReturns => s.(returned := true)
  }

  ghost predicate CanRun<R>(f: nat -> R, s: State<R>, es: seq<Event>)
    decreases |es|
  {
    es != [] ==> Enabled(s, es[0]) && CanRun(f, Step(f, s, es[0]), es[1..])
  }

  ghost function Run<R>(f: nat -> R, s: State<R>, es: seq<Event>): State<R>
    requires CanRun(f, s, es)
    decreases |es|
  {
    if es == [] then s else Run(f, Step(f, s, es[0]), es[1..])
  }

  // The count of outstanding work

  function Weight<R>(j: Job<R>): nat {
    (if j.inPool.Destroyed? then 0 else 1) + (if j.handler.Queued? then 1 else 0)
  }

  function Outstanding<R>(jobs: seq<Job<R>>): nat {
    if jobs == [] then 0 else Weight(jobs[0]) + Outstanding(jobs[1..])
  }

  function Unfinished<R>(jobs: seq<Job<R>>): nat {
    if jobs == [] then 0 else (if jobs[0].handler.Ran? then 0 else 1) + Unfinished(jobs[1..])
  }

  /** The jobs whose handler has not run. */
  ghost function UnfinishedIds<R>(jobs: seq<Job<R>>): set<nat> {
    set i: nat | i < |jobs| && !jobs[i].handler.Ran?
  }

  lemma {:induction false} UnfinishedCounts<R>(jobs: seq<Job<R>>)
    ensures Unfinished(jobs) == |UnfinishedIds(jobs)|
  {
    if jobs == [] {
      assert UnfinishedIds(jobs) == {};
    } else {
      var tail := UnfinishedIds(jobs[1..]);
      var shifted := set i: nat | i in tail :: i + 1;
      UnfinishedCounts(jobs[1..]);
      Shifted(tail, shifted);
      assert UnfinishedIds(jobs) == (if jobs[0].handler.Ran? then {} else {0}) + shifted by {
        forall i: nat
          ensures i in UnfinishedIds(jobs) <==> (i == 0 && !jobs[0].handler.Ran?) || i in shifted
        {
          if i > 0 {
            assert i < |jobs| ==> jobs[i] == jobs[1..][i - 1];
            assert i - 1 in tail ==> (i - 1) + 1 in shifted;
          }
        }
      }
    }
  }

  lemma Shifted(s: set<nat>, t: set<nat>)
    requires t == set i: nat | i in s :: i + 1
    ensures |t| == |s| && 0 !in t
    decreases |s|
  {
    if s != {} {
      var k :| k in s;
      var rest := set i: nat | i in s - {k} :: i + 1;
      Shifted(s - {k}, rest);
      forall x: nat
        ensures x in t <==> x in rest + {k + 1}
      {
        if x in t {
          var i :| i in s && i + 1 == x;
          assert i == k || i in s - {k};
        }
        if x in rest {
          var i :| i in s - {k} && i + 1 == x;
          assert i in s;
        }
        assert k in s;
      }
      assert k + 1 !in rest;
      assert t == rest + {k + 1};
    }
  }

  lemma {:induction false} OutstandingUpdate<R>(jobs: seq<Job<R>>, i: nat, j: Job<R>)
    requires i < |jobs|
    ensures Outstanding(jobs[i := j]) == Outstanding(jobs) - Weight(jobs[i]) + Weight(j)
    decreases i
  {
    if i == 0 {
      assert jobs[i := j][1..] == jobs[1..];
    } else {
      assert jobs[i := j][1..] == jobs[1..][i - 1 := j];
      OutstandingUpdate(jobs[1..], i - 1, j);
    }
  }

  /** What a job's state may be: the handler gets the job's own result, after the job ran. */
  ghost predicate JobInv<R>(f: nat -> R, i: nat, j: Job<R>) {
    match j.inPool
    case Posted => j.handler.NotYet?
    case Computed(result) => j.handler.NotYet? && result == f(i)
    case _ => !j.handler.NotYet? && j.handler.argument == f(i)
  }

  ghost predicate Inv<R>(f: nat -> R, s: State<R>) {
    && (forall i :: 0 <= i < |s.jobs| ==> JobInv(f, i, s.jobs[i]))
    && s.work == Outstanding(s.jobs)
    && (s.returned ==> forall i :: 0 <= i < |s.jobs| ==> s.jobs[i].inPool.Destroyed? && s.jobs[i].handler.Ran?)
  }

  /** A job whose handler has not run is outstanding work. */
  lemma {:induction false} UnfinishedIsOutstanding<R>(f: nat -> R, jobs: seq<Job<R>>, first: nat)
    requires forall i :: 0 <= i < |jobs| ==> JobInv(f, first + i, jobs[i])
    ensures Unfinished(jobs) <= Outstanding(jobs)
    ensures Outstanding(jobs) == 0 ==>
              forall i :: 0 <= i < |jobs| ==> jobs[i].inPool.Destroyed? && jobs[i].handler.Ran?
    decreases |jobs|
  {
    if jobs != [] {
      assert JobInv(f, first + 0, jobs[0]);
      forall i | 0 <= i < |jobs[1..]|
        ensures JobInv(f, first + 1 + i, jobs[1..][i])
      {
        assert JobInv(f, first + (i + 1), jobs[i + 1]);
      }
      UnfinishedIsOutstanding(f, jobs[1..], first + 1);
    }
  }

  lemma StepKeepsInv<R>(f: nat -> R, s: State<R>, e: Event)
    requires Inv(f, s) && Enabled(s, e)
    ensures Inv(f, Step(f, s, e))
  {
    if e.RunReturns? {
      UnfinishedIsOutstanding(f, s.jobs, 0);
    } else {
      assert JobInv(f, e.i, s.jobs[e.i]);
      OutstandingUpdate(s.jobs, e.i, Step(f, s, e).jobs[e.i]);
    }
  }

  lemma {:induction false} RunKeepsInv<R>(f: nat -> R, s: State<R>, es: seq<Event>)
    requires Inv(f, s) && CanRun(f, s, es)
    ensures Inv(f, Run(f, s, es)) && |Run(f, s, es).jobs| == |s.jobs|
    decreases |es|
  {
    if es != [] {
      StepKeepsInv(f, s, es[0]);
      RunKeepsInv(f, Step(f, s, es[0]), es[1..]);
    }
  }

  lemma {:induction false} FreshJobsWeigh<R>(n: nat)
    ensures Outstanding(Submitted<R>(n, true).jobs) == n
  {
    if n > 0 {
      FreshJobsWeigh<R>(n - 1);
      assert Submitted<R>(n, true).jobs[1..] == Submitted<R>(n - 1, true).jobs;
    }
  }

  /** How often the handler of job `i` runs. */
  ghost function Calls(es: seq<Event>, i: nat): nat {
    if es == [] then 0 else (if es[0] == RunHandler(i) then 1 else 0) + Calls(es[1..], i)
  }

  lemma {:induction false} CallsOfRun<R>(f: nat -> R, s: State<R>, es: seq<Event>, i: nat)
    requires Inv(f, s) && CanRun(f, s, es) && i < |s.jobs|
    ensures |Run(f, s, es).jobs| == |s.jobs|
    ensures Calls(es, i) + (if s.jobs[i].handler.Ran? then 1 else 0)
         == if Run(f, s, es).jobs[i].handler.Ran? then 1 else 0
    decreases |es|
  {
    if es != [] {
      StepKeepsInv(f, s, es[0]);
      assert JobInv(f, i, s.jobs[i]);
      CallsOfRun(f, Step(f, s, es[0]), es[1..], i);
    }
  }

  /** Over all interleavings of the pool threads and the executor the outstanding work is at
      least the number of unfinished jobs, no handler runs twice, and a handler that ran got
      its own job's result. When `run` returns every handler has run exactly once. */
  lemma RunReturnsLast<R>(f: nat -> R, n: nat, es: seq<Event>, i: nat)
    requires CanRun(f, Submitted(n, true), es) && i < n
    ensures var s := Run(f, Submitted(n, true), es);
            && |s.jobs| == n
            && |UnfinishedIds(s.jobs)| <= s.work
            && Calls(es, i) <= 1
            && (Calls(es, i) == 1 <==> s.jobs[i].handler == Ran(f(i)))
            && (s.returned ==> Calls(es, i) == 1)
  {
    FreshJobsWeigh<R>(n);
    RunKeepsInv(f, Submitted(n, true), es);
    var s := Run(f, Submitted(n, true), es);
    UnfinishedIsOutstanding(f, s.jobs, 0);
    UnfinishedCounts(s.jobs);
    CallsOfRun(f, Submitted(n, true), es, i);
    assert JobInv(f, i, s.jobs[i]);
  }

  // Progress

  /** The number of events a job has left. */
  function Steps<R>(j: Job<R>): nat {
    (match j.inPool case Posted => 4 case Computed(_) => 3 case Dispatched => 1 case Destroyed => 0)
    + (if j.handler.Queued? then 1 else 0)
  }

  function StepsLeft<R>(jobs: seq<Job<R>>): nat {
    if jobs == [] then 0 else Steps(jobs[0]) + StepsLeft(jobs[1..])
  }

  lemma {:induction false} StepsUpdate<R>(jobs: seq<Job<R>>, i: nat, j: Job<R>)
    requires i < |jobs|
    ensures StepsLeft(jobs[i := j]) == StepsLeft(jobs) - Steps(jobs[i]) + Steps(j)
    decreases i
  {
    if i == 0 {
      assert jobs[i := j][1..] == jobs[1..];
    } else {
      assert jobs[i := j][1..] == jobs[1..][i - 1 := j];
      StepsUpdate(jobs[1..], i - 1, j);
    }
  }

  lemma {:induction false} FreshSteps<R>(n: nat)
    ensures StepsLeft(Submitted<R>(n, true).jobs) == 4 * n
  {
    if n > 0 {
      FreshSteps<R>(n - 1);
      assert Submitted<R>(n, true).jobs[1..] == Submitted<R>(n - 1, true).jobs;
    }
  }

  function Left<R>(s: State<R>): nat {
    StepsLeft(s.jobs) + if s.returned then 0 else 1
  }

  lemma OneStepLess<R>(f: nat -> R, s: State<R>, e: Event)
    requires Inv(f, s) && Enabled(s, e)
    ensures Left(Step(f, s, e)) == Left(s) - 1
  {
    if !e.RunReturns? {
      assert JobInv(f, e.i, s.jobs[e.i]);
      StepsUpdate(s.jobs, e.i, Step(f, s, e).jobs[e.i]);
    }
  }

  lemma {:induction false} RunStepsLess<R>(f: nat -> R, s: State<R>, es: seq<Event>)
    requires Inv(f, s) && CanRun(f, s, es)
    ensures Inv(f, Run(f, s, es)) && |es| + Left(Run(f, s, es)) == Left(s)
    decreases |es|
  {
    if es != [] {
      StepKeepsInv(f, s, es[0]);
      OneStepLess(f, s, es[0]);
      RunStepsLess(f, Step(f, s, es[0]), es[1..]);
    }
  }

  /** As long as something is outstanding, some job can go on. */
  lemma {:induction false} SomethingToDo<R>(jobs: seq<Job<R>>) returns (i: nat)
    requires StepsLeft(jobs) > 0
    ensures i < |jobs| && Steps(jobs[i]) > 0
  {
    if Steps(jobs[0]) > 0 {
      i := 0;
    } else {
      var k := SomethingToDo(jobs[1..]);
      i := k + 1;
    }
  }

  /** A job that has nothing left to do is no outstanding work. */
  lemma {:induction false} NothingOutstanding<R>(jobs: seq<Job<R>>)
    ensures StepsLeft(jobs) == 0 <==> Outstanding(jobs) == 0
  {
    if jobs != [] {
      NothingOutstanding(jobs[1..]);
    }
  }

  lemma CanGoOn<R>(f: nat -> R, s: State<R>) returns (e: Event)
    requires Inv(f, s) && !s.returned
    ensures Enabled(s, e)
  {
    NothingOutstanding(s.jobs);
    if StepsLeft(s.jobs) == 0 {
      e := RunReturns;
    } else {
      var i := SomethingToDo(s.jobs);
      assert JobInv(f, i, s.jobs[i]);
      match s.jobs[i].inPool
      case Posted => e := Compute(i);
      case Computed(_) => e := Dispatch(i);
      case Dispatched => e := Destroy(i);
      case Destroyed => e := RunHandler(i);
    }
  }

  /** `run` does return: no run has more than four events per job and the return itself, and a
      run has this many if and only if `run` has returned, which is if and only if nothing can
      happen any more. */
  lemma RunReturnsAtLast<R>(f: nat -> R, n: nat, es: seq<Event>)
    requires CanRun(f, Submitted(n, true), es)
    ensures |es| <= 4 * n + 1
    ensures var s := Run(f, Submitted(n, true), es);
            && (s.returned <==> |es| == 4 * n + 1)
            && (s.returned <==> forall e :: !Enabled(s, e))
  {
    FreshJobsWeigh<R>(n);
    FreshSteps<R>(n);
    RunStepsLess(f, Submitted(n, true), es);
    var s := Run(f, Submitted(n, true), es);
    NothingOutstanding(s.jobs);
    if s.returned {
      AllDone(s.jobs);
    } else {
      var e := CanGoOn(f, s);
    }
  }

  lemma {:induction false} AllDone<R>(jobs: seq<Job<R>>)
    requires forall i :: 0 <= i < |jobs| ==> jobs[i].inPool.Destroyed? && jobs[i].handler.Ran?
    ensures StepsLeft(jobs) == 0
  {
    if jobs != [] { AllDone(jobs[1..]); }
  }

  /** The guard is needed: without it `run` can return before any handler, and then none of
      them ever runs. */
  lemma WithoutGuardRunReturnsEarly<R>(f: nat -> R, n: nat, es: seq<Event>, i: nat)
    requires i < n
    ensures Enabled(Submitted<R>(n, false), RunReturns)
    ensures CanRun(f, Step(f, Submitted(n, false), RunReturns), es) ==> Calls(es, i) == 0
  {
    if CanRun(f, Step(f, Submitted(n, false), RunReturns), es) {
      NoCallsAfterReturn(f, Step(f, Submitted(n, false), RunReturns), es, i);
    }
  }

  lemma {:induction false} NoCallsAfterReturn<R>(f: nat -> R, s: State<R>, es: seq<Event>, i: nat)
    requires s.returned && CanRun(f, s, es)
    ensures Calls(es, i) == 0
    decreases |es|
  {
    if es != [] {
      NoCallsAfterReturn(f, Step(f, s, es[0]), es[1..], i);
    }
  }
}
