/** The part of the task control block (mini_rtos/include/scheduler.h) that the priority scheduler works on. */
module TaskControl {
  import opened Machine

  class Task {
    const id: uint32
    var priority: uint8
    var originalPriority: uint8
    // TASK_FLAG_INHERITED
    var inherited: bool
    var inheritanceDepth: uint32
    var blockedBy: Task?
    var blocking: Task?

    constructor (id: uint32, priority: uint8)
      ensures this.id == id && this.priority == priority && originalPriority == 0
      ensures !inherited && inheritanceDepth == 0
      ensures blockedBy == blocking == null
    {
      this.id := id;
      this.priority := priority;
      originalPriority := 0;
      inherited, inheritanceDepth := false, 0;
      blockedBy, blocking := null, null;
    }

    // The priority that the task has by itself, whatever it has inherited for the moment.
    function Base(): uint8
      reads this`priority, this`originalPriority, this`inherited
    {
      if inherited then originalPriority else priority
    }
  }
}
