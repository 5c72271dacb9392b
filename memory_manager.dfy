/**
 * `InMemoryTaskManager` of app/services/manager/memory_manager.py: a task
 * manager whose queue is an in-memory FIFO with `enqueue`, `dequeue` and
 * `is_queue_empty`. It extends `TaskManager`; here it holds one and works on
 * that manager's `queue` field. The manager's own `add_task` and
 * `check_queue` do not go through these methods: they change `queue`
 * directly (see BaseManager).
 */
module MemoryManager {
  import opened ManagerModel
  import opened BaseManager

  class InMemoryTaskManager {
    const base: TaskManager

    constructor(maxConcurrentTasks: int)
      ensures fresh(base)
      ensures base.Model() == Init(maxConcurrentTasks)
    {
      base := new TaskManager(maxConcurrentTasks);
    }

    /** `create_queue`: a new, empty queue; the manager's own is untouched. */
    method CreateQueue() returns (q: seq<Job>)
      ensures q == []
    {
      q := [];
    }

    /** `enqueue`: the task goes to the tail; every earlier task stays where it was. */
    method Enqueue(task: Job)
      modifies base
      ensures base.queue == old(base.queue) + [task]
      ensures |base.queue| == |old(base.queue)| + 1 && base.queue[..|old(base.queue)|] == old(base.queue)
      ensures base.currentTasks == old(base.currentTasks) && base.threads == old(base.threads)
    {
      base.queue := base.queue + [task];
      assert base.queue[..|old(base.queue)|] == old(base.queue);
    }

    /** `dequeue`: the head of the queue is removed and returned. The
        source blocks on an empty queue; here the caller must not call it then. */
    method Dequeue() returns (task: Job)
      requires base.queue != []
      modifies base
      ensures task == old(base.queue)[0]
      ensures base.queue == old(base.queue)[1..]
      ensures [task] + base.queue == old(base.queue)
      ensures base.currentTasks == old(base.currentTasks) && base.threads == old(base.threads)
    {
      task := base.queue[0];
      base.queue := base.queue[1..];
    }

    /** `is_queue_empty`. */
    method IsQueueEmpty() returns (empty: bool)
      ensures empty <==> |base.queue| == 0
    {
      empty := base.queue == [];
    }

    /** A task put on an empty queue is the next one taken off, and the
        queue is empty again afterwards. */
    method EnqueueThenDequeue(task: Job) returns (got: Job)
      requires base.queue == []
      modifies base
      ensures got == task && base.queue == []
      ensures base.currentTasks == old(base.currentTasks) && base.threads == old(base.threads)
    {
      Enqueue(task);
      got := Dequeue();
    }
  }
}
