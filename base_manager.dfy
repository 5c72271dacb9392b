/**
 * `TaskManager` of app/services/manager/base_manager.py as a class whose
 * fields are updated in place. Each method does one atomic step of the
 * manager and is proved to do what the matching function of ManagerModel
 * says; the properties of those functions are in ManagerProperties.
 * The threads the manager starts are kept as the field `threads`.
 */
module BaseManager {
  import opened ManagerModel

  class TaskManager {
    const maxConcurrentTasks: int
    var currentTasks: int
    var queue: seq<Job>
    var threads: seq<Worker>

    function Model(): State
      reads this
    {
      State(maxConcurrentTasks, currentTasks, queue, threads)
    }

    /** `__init__`: the limit is kept as given, even 0 or negative. */
    constructor(maxConcurrentTasks: int)
      ensures this.maxConcurrentTasks == maxConcurrentTasks
      ensures currentTasks == 0 && queue == [] && threads == []
      ensures Model() == Init(maxConcurrentTasks)
    {
      this.maxConcurrentTasks := maxConcurrentTasks;
      currentTasks := 0;
      queue := [];
      threads := [];
    }

    /** `execute_task`: a new thread, not yet started, for the job. */
    method ExecuteTask(job: Job)
      modifies this
      ensures threads == old(threads) + [Worker(job, Dispatched)]
      ensures currentTasks == old(currentTasks) && queue == old(queue)
      ensures Model() == ManagerModel.ExecuteTask(old(Model()), job)
    {
      threads := threads + [Worker(job, Dispatched)];
    }

    /** `add_task`: below the limit the job is dispatched and neither the
        counter nor the queue changes; otherwise it goes to the tail of the
        queue and nothing is dispatched. The queue is not consulted. */
    method AddTask(job: Job)
      modifies this
      ensures old(currentTasks) < maxConcurrentTasks ==>
        threads == old(threads) + [Worker(job, Dispatched)] && queue == old(queue)
      ensures old(currentTasks) >= maxConcurrentTasks ==>
        queue == old(queue) + [job] && threads == old(threads)
      ensures currentTasks == old(currentTasks)
      ensures Model() == ManagerModel.AddTask(old(Model()), job)
    {
      if currentTasks < maxConcurrentTasks {
        ExecuteTask(job);
      } else {
        queue := queue + [job];
      }
    }

    /** The first critical section of `run_task`, on thread t. */
    method RunTaskStart(t: nat)
      requires HasPhase(Model(), t, Dispatched)
      modifies this
      ensures currentTasks == old(currentTasks) + 1
      ensures threads == old(threads)[t := Worker(old(threads)[t].job, Running)]
      ensures queue == old(queue)
      ensures Model() == StartTask(old(Model()), t)
    {
      currentTasks := currentTasks + 1;
      threads := threads[t := threads[t].(phase := Running)];
    }

    /** The job body of thread t returns or raises (`raised`), and the
        `finally` clause enters `task_done`, which lowers the counter. */
    method RunTaskFinish(t: nat, raised: bool)
      requires HasPhase(Model(), t, Running)
      modifies this
      ensures currentTasks == old(currentTasks) - 1
      ensures threads == old(threads)[t := Worker(old(threads)[t].job, Completing)]
      ensures queue == old(queue)
      ensures Model() == FinishTask(old(Model()), t, raised)
    {
      currentTasks := currentTasks - 1;
      threads := threads[t := threads[t].(phase := Completing)];
    }

    /** `check_queue`: admits at most one job, only below the limit, and
        that job is the oldest queued one; an empty queue changes nothing. */
    method CheckQueue()
      modifies this
      ensures currentTasks == old(currentTasks)
      ensures old(currentTasks) < maxConcurrentTasks && |old(queue)| > 0 ==>
        queue == old(queue)[1..] && threads == old(threads) + [Worker(old(queue)[0], Dispatched)]
      ensures !(old(currentTasks) < maxConcurrentTasks && |old(queue)| > 0) ==>
        queue == old(queue) && threads == old(threads)
      ensures Model() == ManagerModel.CheckQueue(old(Model()))
    {
      if currentTasks < maxConcurrentTasks {
        if queue == [] {
          return;
        }
        var job := queue[0];
        queue := queue[1..];
        ExecuteTask(job);
      }
    }

    /** The last statement of `task_done` on thread t; the thread ends after it. */
    method TaskDoneCheck(t: nat)
      requires HasPhase(Model(), t, Completing)
      modifies this
      ensures Model() == ManagerModel.TaskDoneCheck(old(Model()), t)
    {
      threads := threads[t := threads[t].(phase := Exited)];
      CheckQueue();
    }

    /** One event of a schedule. */
    method Perform(e: Event)
      requires Enabled(Model(), e)
      modifies this
      ensures Model() == Step(old(Model()), e)
    {
      match e
      case Submit(job) => AddTask(job);
      case Start(t) => RunTaskStart(t);
      case Finish(t, raised) => RunTaskFinish(t, raised);
      case Recheck(t) => TaskDoneCheck(t);
    }

    /** A whole schedule, event by event. */
    method RunSchedule(es: seq<Event>)
      requires IsSchedule(Model(), es)
      modifies this
      ensures Model() == Final(old(Model()), es)
    {
      var i := 0;
      while i < |es|
        invariant 0 <= i <= |es|
        invariant IsSchedule(Model(), es[i..])
        invariant Final(old(Model()), es) == Final(Model(), es[i..])
      {
        assert es[i..][0] == es[i] && es[i..][1..] == es[i + 1..];
        Perform(es[i]);
        i := i + 1;
      }
    }
  }
}
