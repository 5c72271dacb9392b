/**
 * What the task manager of app/services/manager/base_manager.py guarantees,
 * and what it does not, over every schedule of its events.
 */
module ManagerProperties {
  import opened ManagerModel

  // ---------------------------------------------------------------------
  // Counting threads by phase

  lemma CountAppend(ts: seq<Worker>, w: Worker, p: Phase)
    ensures Count(ts + [w], p) == Count(ts, p) + (if w.phase == p then 1 else 0)
  {
    assert (ts + [w])[..|ts|] == ts;
  }

  lemma {:induction false} CountUpdate(ts: seq<Worker>, t: nat, w: Worker, p: Phase)
    requires t < |ts|
    ensures Count(ts[t := w], p)
         == Count(ts, p) - (if ts[t].phase == p then 1 else 0) + (if w.phase == p then 1 else 0)
    decreases |ts|
  {
    var n := |ts| - 1;
    if t == n {
      assert ts[t := w][..n] == ts[..n];
    } else {
      CountUpdate(ts[..n], t, w, p);
      assert ts[t := w][..n] == ts[..n][t := w];
    }
  }

  /** Every thread is in exactly one phase. */
  lemma {:induction false} CountTotal(ts: seq<Worker>)
    ensures Count(ts, Dispatched) + Count(ts, Running) + Count(ts, Completing) + Count(ts, Exited) == |ts|
    decreases |ts|
  {
    if ts != [] {
      CountTotal(ts[..|ts| - 1]);
    }
  }

  /** Moving thread t to phase p changes only the counts of its old and new phases. */
  lemma SetPhaseCounts(s: State, t: nat, p: Phase, q: Phase)
    requires t < |s.threads|
    ensures Count(SetPhase(s, t, p).threads, q)
         == Count(s.threads, q) - (if s.threads[t].phase == q then 1 else 0) + (if p == q then 1 else 0)
  {
    CountUpdate(s.threads, t, s.threads[t].(phase := p), q);
  }

  /** Running past one enabled event. */
  lemma ScheduleCons(s: State, e: Event, es: seq<Event>)
    requires Enabled(s, e) && IsSchedule(Step(s, e), es)
    ensures IsSchedule(s, [e] + es) && Final(s, [e] + es) == Final(Step(s, e), es)
  {
    assert ([e] + es)[1..] == es;
  }

  // ---------------------------------------------------------------------
  // The counter counts the jobs whose body is running

  predicate CounterMatches(s: State)
  {
    s.currentTasks == Count(s.threads, Running)
  }

  lemma StepKeepsCounterMatch(s: State, e: Event)
    requires Enabled(s, e) && CounterMatches(s)
    ensures CounterMatches(Step(s, e))
  {
    match e
    case Submit(job) =>
      CountAppend(s.threads, Worker(job, Dispatched), Running);
    case Start(t) =>
      SetPhaseCounts(s, t, Running, Running);
    case Finish(t, _) =>
      SetPhaseCounts(s, t, Completing, Running);
    case Recheck(t) =>
      var s1 := SetPhase(s, t, Exited);
      SetPhaseCounts(s, t, Exited, Running);
      if |s1.queue| > 0 {
        CountAppend(s1.threads, Worker(s1.queue[0], Dispatched), Running);
      }
  }

  lemma {:induction false} RunKeepsCounterMatch(s: State, es: seq<Event>)
    requires IsSchedule(s, es) && CounterMatches(s)
    ensures CounterMatches(Final(s, es))
    decreases |es|
  {
    if es != [] {
      StepKeepsCounterMatch(s, es[0]);
      RunKeepsCounterMatch(Step(s, es[0]), es[1..]);
    }
  }

  /** On every schedule, `current_tasks` equals the number of jobs that have
      done their increment and not yet their `task_done`: each `run_task`
      raises it once and lowers it once, whether or not the body raised. */
  lemma CounterCountsRunningJobs(m: int, es: seq<Event>)
    requires IsSchedule(Init(m), es)
    ensures Final(Init(m), es).currentTasks == Count(Final(Init(m), es).threads, Running)
    ensures Final(Init(m), es).currentTasks >= 0
  {
    RunKeepsCounterMatch(Init(m), es);
  }

  // ---------------------------------------------------------------------
  // The limit holds only on serial schedules

  predicate SerialBound(s: State)
  {
    CounterMatches(s) && Count(s.threads, Dispatched) + Count(s.threads, Running) <= s.maxConcurrentTasks
  }

  lemma SerialStepKeepsBound(s: State, e: Event)
    requires Enabled(s, e) && SerialBound(s)
    requires IsAdmissionCheck(e) ==> Count(s.threads, Dispatched) == 0
    ensures SerialBound(Step(s, e))
  {
    StepKeepsCounterMatch(s, e);
    match e
    case Submit(job) =>
      CountAppend(s.threads, Worker(job, Dispatched), Dispatched);
      CountAppend(s.threads, Worker(job, Dispatched), Running);
    case Start(t) =>
      SetPhaseCounts(s, t, Running, Dispatched);
      SetPhaseCounts(s, t, Running, Running);
    case Finish(t, _) =>
      SetPhaseCounts(s, t, Completing, Dispatched);
      SetPhaseCounts(s, t, Completing, Running);
    case Recheck(t) =>
      var s1 := SetPhase(s, t, Exited);
      SetPhaseCounts(s, t, Exited, Dispatched);
      SetPhaseCounts(s, t, Exited, Running);
      if |s1.queue| > 0 {
        CountAppend(s1.threads, Worker(s1.queue[0], Dispatched), Dispatched);
        CountAppend(s1.threads, Worker(s1.queue[0], Dispatched), Running);
      }
  }

  lemma {:induction false} SerialRunKeepsBound(s: State, es: seq<Event>)
    requires IsSchedule(s, es) && Serial(s, es) && SerialBound(s)
    ensures SerialBound(Final(s, es))
    decreases |es|
  {
    if es != [] {
      SerialStepKeepsBound(s, es[0]);
      SerialRunKeepsBound(Step(s, es[0]), es[1..]);
    }
  }

  /** When every dispatched job raises the counter before the next admission
      check, the counter never exceeds the limit. */
  lemma SerialScheduleRespectsLimit(m: int, es: seq<Event>)
    requires 0 <= m && IsSchedule(Init(m), es) && Serial(Init(m), es)
    ensures 0 <= Final(Init(m), es).currentTasks <= m
  {
    assert SerialBound(Init(m));
    SerialRunKeepsBound(Init(m), es);
    var f := Final(Init(m), es);
    assert f.currentTasks == Count(f.threads, Running);
    assert f.maxConcurrentTasks == m by { FinalKeepsLimit(Init(m), es); }
  }

  lemma {:induction false} FinalKeepsLimit(s: State, es: seq<Event>)
    requires IsSchedule(s, es)
    ensures Final(s, es).maxConcurrentTasks == s.maxConcurrentTasks
    decreases |es|
  {
    if es != [] {
      FinalKeepsLimit(Step(s, es[0]), es[1..]);
    }
  }

  /** Two `add_task` calls made before the first job's thread takes the lock
      both see a counter of 0: with a limit of 1, two jobs run at once. */
  lemma OverAdmission(a: Job, b: Job)
    ensures IsSchedule(Init(1), [Submit(a), Submit(b), Start(0), Start(1)])
    ensures Final(Init(1), [Submit(a), Submit(b), Start(0), Start(1)]).currentTasks == 2
  {
    var s0 := Init(1);
    var s1 := Step(s0, Submit(a));
    var s2 := Step(s1, Submit(b));
    assert s2.threads == [Worker(a, Dispatched), Worker(b, Dispatched)];
    var s3 := Step(s2, Start(0));
    assert s3.threads == [Worker(a, Running), Worker(b, Dispatched)];
    var s4 := Step(s3, Start(1));
    assert s4.currentTasks == 2;
    ScheduleCons(s3, Start(1), []);
    ScheduleCons(s2, Start(0), [Start(1)]);
    assert [Start(0)] + [Start(1)] == [Start(0), Start(1)];
    ScheduleCons(s1, Submit(b), [Start(0), Start(1)]);
    assert [Submit(b)] + [Start(0), Start(1)] == [Submit(b), Start(0), Start(1)];
    ScheduleCons(s0, Submit(a), [Submit(b), Start(0), Start(1)]);
    assert [Submit(a)] + [Submit(b), Start(0), Start(1)] == [Submit(a), Submit(b), Start(0), Start(1)];
  }

  /** Two schedules run one after the other. */
  lemma {:induction false} ScheduleAppend(s: State, xs: seq<Event>, ys: seq<Event>)
    requires IsSchedule(s, xs) && IsSchedule(Final(s, xs), ys)
    ensures IsSchedule(s, xs + ys) && Final(s, xs + ys) == Final(Final(s, xs), ys)
    decreases |xs|
  {
    if xs != [] {
      ScheduleAppend(Step(s, xs[0]), xs[1..], ys);
      assert (xs + ys)[0] == xs[0] && (xs + ys)[1..] == xs[1..] + ys;
    } else {
      assert xs + ys == ys;
    }
  }

  /** The first five events: the second job is queued, and the third is
      admitted while it waits. */
  lemma OvertakePrefix(a: Job, b: Job, c: Job)
    ensures IsSchedule(Init(1), [Submit(a), Start(0), Submit(b), Finish(0, false), Submit(c)])
    ensures Final(Init(1), [Submit(a), Start(0), Submit(b), Finish(0, false), Submit(c)])
         == State(1, 0, [b], [Worker(a, Completing), Worker(c, Dispatched)])
  {
    var s0 := Init(1);
    var s1 := Step(s0, Submit(a));
    var s2 := Step(s1, Start(0));
    var s3 := Step(s2, Submit(b));
    assert s3 == State(1, 1, [b], [Worker(a, Running)]);
    var s4 := Step(s3, Finish(0, false));
    assert s4 == State(1, 0, [b], [Worker(a, Completing)]);
    var s5 := Step(s4, Submit(c));
    assert s5 == State(1, 0, [b], [Worker(a, Completing), Worker(c, Dispatched)]);
    var head := [Submit(a), Start(0), Submit(b), Finish(0, false), Submit(c)];
    ScheduleCons(s4, Submit(c), []);
    ScheduleCons(s3, Finish(0, false), head[4..]);
    assert [Finish(0, false)] + head[4..] == head[3..];
    ScheduleCons(s2, Submit(b), head[3..]);
    assert [Submit(b)] + head[3..] == head[2..];
    ScheduleCons(s1, Start(0), head[2..]);
    assert [Start(0)] + head[2..] == head[1..];
    ScheduleCons(s0, Submit(a), head[1..]);
    assert [Submit(a)] + head[1..] == head;
  }

  /** Then the first thread's `check_queue` admits the queued job too. */
  lemma OvertakeSuffix(a: Job, b: Job, c: Job)
    ensures IsSchedule(State(1, 0, [b], [Worker(a, Completing), Worker(c, Dispatched)]),
                       [Recheck(0), Start(1), Start(2)])
    ensures Final(State(1, 0, [b], [Worker(a, Completing), Worker(c, Dispatched)]),
                  [Recheck(0), Start(1), Start(2)]).currentTasks == 2
  {
    var s5 := State(1, 0, [b], [Worker(a, Completing), Worker(c, Dispatched)]);
    var s6 := Step(s5, Recheck(0));
    assert s6 == State(1, 0, [], [Worker(a, Exited), Worker(c, Dispatched), Worker(b, Dispatched)]);
    var s7 := Step(s6, Start(1));
    var s8 := Step(s7, Start(2));
    assert s8.currentTasks == 2;
    var tail := [Recheck(0), Start(1), Start(2)];
    ScheduleCons(s7, Start(2), []);
    ScheduleCons(s6, Start(1), [Start(2)]);
    assert [Start(1)] + [Start(2)] == tail[1..];
    ScheduleCons(s5, Recheck(0), tail[1..]);
    assert [Recheck(0)] + tail[1..] == tail;
  }

  /** `add_task` does not look at the queue: after a job finishes, a newly
      submitted job is admitted while an older one is still queued, and the
      older one is then admitted too, so two jobs run under a limit of 1. */
  lemma NewJobOvertakesQueuedJob(a: Job, b: Job, c: Job)
    ensures IsSchedule(Init(1), [Submit(a), Start(0), Submit(b), Finish(0, false), Submit(c)])
    ensures Final(Init(1), [Submit(a), Start(0), Submit(b), Finish(0, false), Submit(c)]).queue == [b]
    ensures Final(Init(1), [Submit(a), Start(0), Submit(b), Finish(0, false), Submit(c)]).threads
         == [Worker(a, Completing), Worker(c, Dispatched)]
    ensures IsSchedule(Init(1), [Submit(a), Start(0), Submit(b), Finish(0, false), Submit(c),
                                 Recheck(0), Start(1), Start(2)])
    ensures Final(Init(1), [Submit(a), Start(0), Submit(b), Finish(0, false), Submit(c),
                            Recheck(0), Start(1), Start(2)]).currentTasks == 2
  {
    var head := [Submit(a), Start(0), Submit(b), Finish(0, false), Submit(c)];
    var tail := [Recheck(0), Start(1), Start(2)];
    OvertakePrefix(a, b, c);
    OvertakeSuffix(a, b, c);
    ScheduleAppend(Init(1), head, tail);
    assert head + tail == [Submit(a), Start(0), Submit(b), Finish(0, false), Submit(c),
                           Recheck(0), Start(1), Start(2)];
  }

  // ---------------------------------------------------------------------
  // The limit is not validated

  lemma {:induction false} NonPositiveLimitRun(s: State, es: seq<Event>)
    requires IsSchedule(s, es) && s.maxConcurrentTasks <= 0 && s.threads == [] && s.currentTasks == 0
    ensures Final(s, es).threads == [] && Final(s, es).currentTasks == 0
    ensures Final(s, es).queue == s.queue + Submitted(es)
    decreases |es|
  {
    if es != [] {
      assert es[0].Submit?;
      var s1 := AddTask(s, es[0].job);
      assert s1 == s.(queue := s.queue + [es[0].job]);
      NonPositiveLimitRun(s1, es[1..]);
      assert Submitted(es) == [es[0].job] + Submitted(es[1..]);
      assert Final(s, es) == Final(s1, es[1..]);
    }
  }

  /** With a limit of 0 or less, which the constructor accepts, no job ever
      runs: every submitted job stays queued, in submission order. */
  lemma NonPositiveLimitNeverRuns(m: int, es: seq<Event>)
    requires m <= 0 && IsSchedule(Init(m), es)
    ensures Final(Init(m), es).threads == []
    ensures Final(Init(m), es).queue == Submitted(es)
  {
    NonPositiveLimitRun(Init(m), es);
  }

  // ---------------------------------------------------------------------
  // The queue

  /** Only `check_queue`, run from `task_done` after a job's body is over,
      takes a job off the queue, and only its head. */
  lemma QueueShrinksOnlyInCheckQueue(s: State, e: Event)
    requires Enabled(s, e)
    ensures Step(s, e).queue == s.queue
         || (e.Submit? && Step(s, e).queue == s.queue + [e.job])
         || (e.Recheck? && HasPhase(s, e.thread, Completing) && |s.queue| > 0
             && Step(s, e).queue == s.queue[1..]
             && Step(s, e).threads[|Step(s, e).threads| - 1] == Worker(s.queue[0], Dispatched))
  {
  }

  /** A job is in phase Completing only after its own Finish step. */
  lemma CompletingOnlyAfterFinish(s: State, e: Event, t: nat)
    requires Enabled(s, e) && t < |s.threads| && !HasPhase(s, t, Completing)
    requires HasPhase(Step(s, e), t, Completing)
    ensures e.Finish? && e.thread == t
  {
  }

  /** One step moves at most one job into the queue and at most one out of it. */
  lemma QueueStep(s: State, e: Event)
    requires Enabled(s, e)
    ensures s.queue + Arrival(s, e) == Departure(s, e) + Step(s, e).queue
  {
    if e.Recheck? && s.currentTasks < s.maxConcurrentTasks && |s.queue| > 0 {
      assert Step(s, e).queue == s.queue[1..];
    }
  }

  lemma Regroup(q: seq<Job>, inn: seq<Job>, out: seq<Job>, q1: seq<Job>, ins: seq<Job>, outs: seq<Job>, rest: seq<Job>)
    requires q + inn == out + q1 && q1 + ins == outs + rest
    ensures q + (inn + ins) == (out + outs) + rest
  {
    calc {
      q + (inn + ins);
      (q + inn) + ins;
      (out + q1) + ins;
      out + (q1 + ins);
      out + (outs + rest);
    }
  }

  /** First in, first out: what has been queued is what has been taken off,
      in the same order, followed by what is still waiting. */
  lemma {:induction false} QueueIsFifo(s: State, es: seq<Event>)
    requires IsSchedule(s, es)
    ensures s.queue + Enqueued(s, es) == Dequeued(s, es) + Final(s, es).queue
    decreases |es|
  {
    if es != [] {
      var s1 := Step(s, es[0]);
      QueueStep(s, es[0]);
      QueueIsFifo(s1, es[1..]);
      Regroup(s.queue, Arrival(s, es[0]), Departure(s, es[0]), s1.queue,
              Enqueued(s1, es[1..]), Dequeued(s1, es[1..]), Final(s1, es[1..]).queue);
    }
  }

  // ---------------------------------------------------------------------
  // Failed jobs do not strand the queue

  predicate NoStranded(s: State)
  {
    CounterMatches(s) && (|s.queue| > 0 ==> Count(s.threads, Exited) < |s.threads|)
  }

  lemma RunningMeansNotAllExited(ts: seq<Worker>)
    requires Count(ts, Running) >= 1
    ensures Count(ts, Exited) < |ts|
  {
    CountTotal(ts);
  }

  lemma StepKeepsNoStranded(s: State, e: Event)
    requires s.maxConcurrentTasks >= 1 && Enabled(s, e) && NoStranded(s)
    ensures NoStranded(Step(s, e))
  {
    StepKeepsCounterMatch(s, e);
    CountTotal(s.threads);
    match e
    case Submit(job) =>
      CountAppend(s.threads, Worker(job, Dispatched), Exited);
      if s.currentTasks >= s.maxConcurrentTasks {
        RunningMeansNotAllExited(s.threads);
      }
    case Start(t) =>
      SetPhaseCounts(s, t, Running, Exited);
    case Finish(t, _) =>
      SetPhaseCounts(s, t, Completing, Exited);
    case Recheck(t) =>
      var s1 := SetPhase(s, t, Exited);
      SetPhaseCounts(s, t, Exited, Exited);
      SetPhaseCounts(s, t, Exited, Running);
      CountTotal(s1.threads);
      if s1.currentTasks < s1.maxConcurrentTasks && |s1.queue| > 0 {
        CountAppend(s1.threads, Worker(s1.queue[0], Dispatched), Exited);
      } else if |s1.queue| > 0 {
        RunningMeansNotAllExited(s1.threads);
      }
  }

  lemma {:induction false} RunKeepsNoStranded(s: State, es: seq<Event>)
    requires s.maxConcurrentTasks >= 1 && IsSchedule(s, es) && NoStranded(s)
    ensures NoStranded(Final(s, es))
    decreases |es|
  {
    if es != [] {
      StepKeepsNoStranded(s, es[0]);
      RunKeepsNoStranded(Step(s, es[0]), es[1..]);
    }
  }

  /** With a positive limit, whenever a job is queued some thread is still
      alive and will call `check_queue` before it ends: jobs that raise do
      not leak the counter, so the queue is never left without a thread to drain it. */
  lemma QueuedJobsHaveALiveThread(m: int, es: seq<Event>)
    requires m >= 1 && IsSchedule(Init(m), es)
    ensures |Final(Init(m), es).queue| > 0 ==>
      exists t :: 0 <= t < |Final(Init(m), es).threads| && Final(Init(m), es).threads[t].phase != Exited
  {
    RunKeepsNoStranded(Init(m), es);
    var f := Final(Init(m), es);
    if |f.queue| > 0 {
      NotAllExited(f.threads);
    }
  }

  lemma {:induction false} NotAllExited(ts: seq<Worker>)
    requires Count(ts, Exited) < |ts|
    ensures exists t :: 0 <= t < |ts| && ts[t].phase != Exited
    decreases |ts|
  {
    var n := |ts| - 1;
    if ts[n].phase == Exited {
      NotAllExited(ts[..n]);
      var t :| 0 <= t < n && ts[..n][t].phase != Exited;
      assert ts[t] == ts[..n][t];
    }
  }

  /** A job whose body raises still frees its slot: the queued job behind it
      is admitted by the failing job's own `task_done`. */
  lemma FailedJobStillAdmitsNext(a: Job, b: Job)
    ensures IsSchedule(Init(1), [Submit(a), Start(0), Submit(b), Finish(0, true), Recheck(0)])
    ensures Final(Init(1), [Submit(a), Start(0), Submit(b), Finish(0, true), Recheck(0)]).threads
         == [Worker(a, Exited), Worker(b, Dispatched)]
    ensures Final(Init(1), [Submit(a), Start(0), Submit(b), Finish(0, true), Recheck(0)]).queue == []
  {
    var es := [Submit(a), Start(0), Submit(b), Finish(0, true), Recheck(0)];
    var s0 := Init(1);
    var s1 := Step(s0, Submit(a));
    var s2 := Step(s1, Start(0));
    var s3 := Step(s2, Submit(b));
    assert s3.queue == [b];
    var s4 := Step(s3, Finish(0, true));
    assert s4.currentTasks == 0 && s4.threads == [Worker(a, Completing)];
    var s5 := Step(s4, Recheck(0));
    assert s5.threads == [Worker(a, Exited), Worker(b, Dispatched)] && s5.queue == [];
    ScheduleCons(s4, Recheck(0), []);
    ScheduleCons(s3, Finish(0, true), es[4..]);
    assert [Finish(0, true)] + es[4..] == es[3..];
    ScheduleCons(s2, Submit(b), es[3..]);
    assert [Submit(b)] + es[3..] == es[2..];
    ScheduleCons(s1, Start(0), es[2..]);
    assert [Start(0)] + es[2..] == es[1..];
    ScheduleCons(s0, Submit(a), es[1..]);
    assert [Submit(a)] + es[1..] == es;
  }
}
