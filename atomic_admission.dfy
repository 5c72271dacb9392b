/**
 * The task manager as its limit evidently intends it: the counter is raised
 * in the same critical section that decides to admit a job (in `add_task`
 * and in `check_queue`), and `task_done` lowers the counter and admits the
 * next queued job in one critical section. `run_task` then only runs the
 * body. On this machine the limit holds on every schedule, and a job waits
 * in the queue only while the limit is reached.
 */
module AtomicAdmission {
  import opened ManagerModel
  import ManagerProperties

  /** Admission: the counter moves together with the dispatch. */
  function Admit(s: State, job: Job): State
  {
    s.(currentTasks := s.currentTasks + 1, threads := s.threads + [Worker(job, Dispatched)])
  }

  function AddAtomic(s: State, job: Job): State
  {
    if s.currentTasks < s.maxConcurrentTasks then Admit(s, job)
    else s.(queue := s.queue + [job])
  }

  /** The thread starts the body; no bookkeeping is left for it to do. */
  function BeginBody(s: State, t: nat): State
    requires HasPhase(s, t, Dispatched)
  {
    SetPhase(s, t, Running)
  }

  /** The body is over; the slot passes straight to the oldest queued job. */
  function DoneAtomic(s: State, t: nat): State
    requires HasPhase(s, t, Running)
  {
    var s1 := SetPhase(s, t, Exited).(currentTasks := s.currentTasks - 1);
    if s1.currentTasks < s1.maxConcurrentTasks && |s1.queue| > 0 then
      Admit(s1.(queue := s1.queue[1..]), s1.queue[0])
    else s1
  }

  datatype Action = Add(job: Job) | Begin(thread: nat) | Done(thread: nat, raised: bool)

  predicate Ready(s: State, a: Action)
  {
    match a
    case Add(_) => true
    case Begin(t) => HasPhase(s, t, Dispatched)
    case Done(t, _) => HasPhase(s, t, Running)
  }

  function Next(s: State, a: Action): State
    requires Ready(s, a)
  {
    match a
    case Add(job) => AddAtomic(s, job)
    case Begin(t) => BeginBody(s, t)
    case Done(t, _) => DoneAtomic(s, t)
  }

  predicate IsRun(s: State, acts: seq<Action>)
    decreases |acts|
  {
    acts == [] || (Ready(s, acts[0]) && IsRun(Next(s, acts[0]), acts[1..]))
  }

  function Last(s: State, acts: seq<Action>): State
    requires IsRun(s, acts)
    decreases |acts|
  {
    if acts == [] then s else Last(Next(s, acts[0]), acts[1..])
  }

  lemma RunCons(s: State, a: Action, acts: seq<Action>)
    requires Ready(s, a) && IsRun(Next(s, a), acts)
    ensures IsRun(s, [a] + acts) && Last(s, [a] + acts) == Last(Next(s, a), acts)
  {
    assert ([a] + acts)[1..] == acts;
  }

  /** The counter counts admitted jobs that have not finished; it stays
      within the limit; and a job is queued only while the limit is reached. */
  predicate Inv(s: State)
  {
    && s.currentTasks == Count(s.threads, Dispatched) + Count(s.threads, Running)
    && (s.currentTasks <= s.maxConcurrentTasks || s.currentTasks == 0)
    && (|s.queue| > 0 ==> s.currentTasks >= s.maxConcurrentTasks)
  }

  lemma AdmitCounts(s: State, job: Job)
    ensures Count(Admit(s, job).threads, Dispatched) == Count(s.threads, Dispatched) + 1
    ensures Count(Admit(s, job).threads, Running) == Count(s.threads, Running)
  {
    ManagerProperties.CountAppend(s.threads, Worker(job, Dispatched), Dispatched);
    ManagerProperties.CountAppend(s.threads, Worker(job, Dispatched), Running);
  }

  lemma NextKeepsInv(s: State, a: Action)
    requires Ready(s, a) && Inv(s)
    ensures Inv(Next(s, a))
  {
    match a
    case Add(job) =>
      AdmitCounts(s, job);
    case Begin(t) =>
      ManagerProperties.SetPhaseCounts(s, t, Running, Dispatched);
      ManagerProperties.SetPhaseCounts(s, t, Running, Running);
    case Done(t, _) =>
      var s1 := SetPhase(s, t, Exited).(currentTasks := s.currentTasks - 1);
      ManagerProperties.SetPhaseCounts(s, t, Exited, Dispatched);
      ManagerProperties.SetPhaseCounts(s, t, Exited, Running);
      if s1.currentTasks < s1.maxConcurrentTasks && |s1.queue| > 0 {
        AdmitCounts(s1.(queue := s1.queue[1..]), s1.queue[0]);
      }
  }

  lemma {:induction false} RunKeepsInv(s: State, acts: seq<Action>)
    requires IsRun(s, acts) && Inv(s)
    ensures Inv(Last(s, acts)) && Last(s, acts).maxConcurrentTasks == s.maxConcurrentTasks
    decreases |acts|
  {
    if acts != [] {
      NextKeepsInv(s, acts[0]);
      RunKeepsInv(Next(s, acts[0]), acts[1..]);
    }
  }

  /** On every schedule, however the threads interleave, the number of
      admitted unfinished jobs never exceeds a non-negative limit, and no
      job waits while a slot is free. */
  lemma LimitAlwaysHolds(m: int, acts: seq<Action>)
    requires IsRun(Init(m), acts)
    ensures 0 <= Last(Init(m), acts).currentTasks
    ensures m >= 0 ==> Last(Init(m), acts).currentTasks <= m
    ensures Last(Init(m), acts).currentTasks
         == Count(Last(Init(m), acts).threads, Dispatched) + Count(Last(Init(m), acts).threads, Running)
    ensures |Last(Init(m), acts).queue| > 0 ==> Last(Init(m), acts).currentTasks >= m
  {
    RunKeepsInv(Init(m), acts);
  }

  /** The schedule that over-admits on the unguarded manager: here the
      second job is queued, and the second thread never exists. */
  lemma SecondJobWaits(a: Job, b: Job)
    ensures IsRun(Init(1), [Add(a), Add(b), Begin(0)])
    ensures Last(Init(1), [Add(a), Add(b), Begin(0)]).queue == [b]
    ensures Last(Init(1), [Add(a), Add(b), Begin(0)]).threads == [Worker(a, Running)]
    ensures Last(Init(1), [Add(a), Add(b), Begin(0)]).currentTasks == 1
  {
    var s0 := Init(1);
    var s1 := Next(s0, Add(a));
    var s2 := Next(s1, Add(b));
    assert s2.queue == [b] && s2.threads == [Worker(a, Dispatched)];
    var s3 := Next(s2, Begin(0));
    assert s3.threads == [Worker(a, Running)] && s3.currentTasks == 1;
    RunCons(s2, Begin(0), []);
    RunCons(s1, Add(b), [Begin(0)]);
    assert [Add(b)] + [Begin(0)] == [Add(b), Begin(0)];
    RunCons(s0, Add(a), [Add(b), Begin(0)]);
    assert [Add(a)] + [Add(b), Begin(0)] == [Add(a), Add(b), Begin(0)];
  }
}
