/**
 * The bounded task manager (`TaskManager` in app/services/manager/base_manager.py)
 * as a sequential state machine.
 *
 * Every thread `execute_task` starts becomes a worker that passes through
 * three critical sections of its own, each an event here:
 *   Start    -- `run_task` takes the lock and raises `current_tasks` (lines 72-73);
 *   Finish   -- the job body returns or raises, and `task_done` lowers the
 *               counter (lines 74-78, 95-96);
 *   Recheck  -- `task_done` calls `check_queue` (line 97), which takes the
 *               lock again and may admit the oldest queued job.
 * A call of `add_task` is the fourth event, Submit. The scheduler may
 * interleave the events of different workers in any order; an event runs as
 * one atomic step, as the lock makes each critical section.
 */
module ManagerModel {

  /** What `add_task` queues: `{"func": func, "args": args, "kwargs": kwargs}`.
      The callable is named by `func.__name__` and the arguments by their text;
      the manager never looks inside any of them. */
  datatype Job = Job(func: string, args: seq<string>, kwargs: map<string, string>)

  /** Where the thread running a job is. */
  datatype Phase =
    | Dispatched   // started by execute_task, has not yet raised the counter
    | Running      // has raised the counter; the job body is running
    | Completing   // the body is over and task_done has lowered the counter
    | Exited       // check_queue has run; the thread has ended

  datatype Worker = Worker(job: Job, phase: Phase)

  /** The fields of `TaskManager` plus the threads it has started. */
  datatype State = State(maxConcurrentTasks: int, currentTasks: int, queue: seq<Job>, threads: seq<Worker>)

  /** `__init__`: the limit is stored as given, without any check. */
  function Init(maxConcurrentTasks: int): State
  {
    State(maxConcurrentTasks, 0, [], [])
  }

  /** `execute_task`: starts a thread for the job and returns at once. */
  function ExecuteTask(s: State, job: Job): State
  {
    s.(threads := s.threads + [Worker(job, Dispatched)])
  }

  /** `add_task`: dispatch when the counter is below the limit, else queue. */
  function AddTask(s: State, job: Job): State
  {
    if s.currentTasks < s.maxConcurrentTasks then ExecuteTask(s, job)
    else s.(queue := s.queue + [job])
  }

  predicate HasPhase(s: State, t: nat, p: Phase)
  {
    t < |s.threads| && s.threads[t].phase == p
  }

  function SetPhase(s: State, t: nat, p: Phase): State
    requires t < |s.threads|
  {
    s.(threads := s.threads[t := s.threads[t].(phase := p)])
  }

  /** The first critical section of `run_task`: `current_tasks += 1`. */
  function StartTask(s: State, t: nat): State
    requires HasPhase(s, t, Dispatched)
  {
    SetPhase(s, t, Running).(currentTasks := s.currentTasks + 1)
  }

  /** The job body ends, by returning or by raising (`raised`); either way the
      `finally` clause calls `task_done`, whose first critical section is
      `current_tasks -= 1`. */
  function FinishTask(s: State, t: nat, raised: bool): State
    requires HasPhase(s, t, Running)
  {
    SetPhase(s, t, Completing).(currentTasks := s.currentTasks - 1)
  }

  /** `check_queue`: below the limit, take the oldest queued job, if any, and
      dispatch it with its stored arguments. */
  function CheckQueue(s: State): State
  {
    if s.currentTasks < s.maxConcurrentTasks && |s.queue| > 0 then
      ExecuteTask(s.(queue := s.queue[1..]), s.queue[0])
    else s
  }

  /** The last statement of `task_done`: `self.check_queue()`; the thread ends after it. */
  function TaskDoneCheck(s: State, t: nat): State
    requires HasPhase(s, t, Completing)
  {
    CheckQueue(SetPhase(s, t, Exited))
  }

  datatype Event =
    | Submit(job: Job)
    | Start(thread: nat)
    | Finish(thread: nat, raised: bool)
    | Recheck(thread: nat)

  /** Each thread takes its steps in program order. */
  predicate Enabled(s: State, e: Event)
  {
    match e
    case Submit(_) => true
    case Start(t) => HasPhase(s, t, Dispatched)
    case Finish(t, _) => HasPhase(s, t, Running)
    case Recheck(t) => HasPhase(s, t, Completing)
  }

  function Step(s: State, e: Event): State
    requires Enabled(s, e)
  {
    match e
    case Submit(job) => AddTask(s, job)
    case Start(t) => StartTask(s, t)
    case Finish(t, raised) => FinishTask(s, t, raised)
    case Recheck(t) => TaskDoneCheck(s, t)
  }

  /** `es` is a schedule from `s`: every event is enabled when its turn comes. */
  predicate IsSchedule(s: State, es: seq<Event>)
    decreases |es|
  {
    es == [] || (Enabled(s, es[0]) && IsSchedule(Step(s, es[0]), es[1..]))
  }

  function Final(s: State, es: seq<Event>): State
    requires IsSchedule(s, es)
    decreases |es|
  {
    if es == [] then s else Final(Step(s, es[0]), es[1..])
  }

  /** An admission check is a step that reads the counter to admit a job. */
  predicate IsAdmissionCheck(e: Event)
  {
    e.Submit? || e.Recheck?
  }

  /** The schedules in which every dispatched job has raised the counter
      before the next admission check is made. */
  predicate Serial(s: State, es: seq<Event>)
    requires IsSchedule(s, es)
    decreases |es|
  {
    es == [] ||
    ((IsAdmissionCheck(es[0]) ==> Count(s.threads, Dispatched) == 0) && Serial(Step(s, es[0]), es[1..]))
  }

  /** The number of threads in phase `p`. */
  function Count(ts: seq<Worker>, p: Phase): nat
    decreases |ts|
  {
    if ts == [] then 0
    else Count(ts[..|ts| - 1], p) + (if ts[|ts| - 1].phase == p then 1 else 0)
  }

  /** What one event puts on the queue: the job of an `add_task` at the limit. */
  function Arrival(s: State, e: Event): seq<Job>
  {
    if e.Submit? && s.currentTasks >= s.maxConcurrentTasks then [e.job] else []
  }

  /** What one event takes off the queue: the head, in a `check_queue` below the limit. */
  function Departure(s: State, e: Event): seq<Job>
  {
    if e.Recheck? && s.currentTasks < s.maxConcurrentTasks && |s.queue| > 0 then [s.queue[0]] else []
  }

  /** The jobs `add_task` has put on the queue, in the order of the schedule. */
  function Enqueued(s: State, es: seq<Event>): seq<Job>
    requires IsSchedule(s, es)
    decreases |es|
  {
    if es == [] then [] else Arrival(s, es[0]) + Enqueued(Step(s, es[0]), es[1..])
  }

  /** The jobs `check_queue` has taken off the queue, in the order of the schedule. */
  function Dequeued(s: State, es: seq<Event>): seq<Job>
    requires IsSchedule(s, es)
    decreases |es|
  {
    if es == [] then [] else Departure(s, es[0]) + Dequeued(Step(s, es[0]), es[1..])
  }

  /** The jobs of the schedule's `add_task` calls. */
  function Submitted(es: seq<Event>): seq<Job>
    decreases |es|
  {
    if es == [] then [] else (if es[0].Submit? then [es[0].job] else []) + Submitted(es[1..])
  }
}
