// The fields of struct task_struct (include/linux/sched.h) that the models of fork,
// the scheduler and the wait queues use.
module Tasks {
  const NR_TASKS := 64

  datatype TaskState = RUNNING | INTERRUPTIBLE | UNINTERRUPTIBLE | ZOMBIE | STOPPED

  // `page` is where the structure lives, `dirs` the data limit in directory entries.
  datatype Task = Task(page: int, pid: int, father: int, state: TaskState, counter: int, priority: int, dirs: nat)

  // One element of task[].
  datatype Slot = Empty | Used(task: Task)
}
