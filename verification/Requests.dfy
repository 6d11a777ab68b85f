/**
 Task submission: what the manager's start handler checks, and the task it makes of a request.
 */
module Requests {
  import opened Tasks

  datatype StartTaskRequest = StartTaskRequest(name: string, image: string, memory: int, disk: int)

  datatype Checked = Accepted(spec: TaskSpec) | NameRequired | ImageRequired | MemoryTooSmall | DiskTooSmall

  const MIB := 1024 * 1024

  /** The checks of `StartTaskHandler`, in order. Memory comes in MiB and is kept in bytes. */
  function Check(r: StartTaskRequest, correlationID: string): Checked {
    if r.name == "" then NameRequired
    else if r.image == "" then ImageRequired
    else if r.memory * MIB < 6 * MIB then MemoryTooSmall
    else if r.disk > 0 && r.disk < 1 then DiskTooSmall
    else Accepted(TaskSpec(correlationID, r.name, r.image, r.memory * MIB, r.disk))
  }

  /**
   A request is accepted exactly when it names a task and an image and asks for at least 6 MiB. The disk
   check never fails: no whole number of MiB lies strictly between 0 and 1.
   */
  lemma AcceptedExactly(r: StartTaskRequest, correlationID: string)
    ensures Check(r, correlationID).Accepted? <==> r.name != "" && r.image != "" && r.memory >= 6
    ensures Check(r, correlationID) != DiskTooSmall
    ensures Check(r, correlationID).Accepted? ==>
              var spec := Check(r, correlationID).spec;
              && spec.name == r.name && spec.image == r.image && spec.disk == r.disk
              && spec.correlationID == correlationID && spec.memory == 1_048_576 * r.memory
  {
  }
}
