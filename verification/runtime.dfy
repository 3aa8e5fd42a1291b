/**
 * The containerd runtime service as the teardown code sees it: the calls it
 * can be asked to make on one container and its task, and the abstract
 * outcome of each call (success, NotFound, or some other error).
 */
module Runtime {

  /** An error reported by the runtime service. `Other` errors carry a code
      so that "returned unchanged" can be told apart from "replaced". */
  datatype RuntimeError = NotFound | Other(code: nat)

  /** The answer to one runtime call. */
  datatype Reply<T> = Ok(value: T) | Err(error: RuntimeError)

  /** The process status of a task (containerd's ProcessStatus values). */
  datatype Status = Running | Created | Stopped | Paused | Pausing | Unknown

  /** Options the client can pass to a task delete (`ctdclient.WithProcessKill`). */
  datatype TaskDeleteOpt = ProcessKill

  /** Options the client can pass to a container delete (`ctdclient.WithSnapshotCleanup`). */
  datatype ContainerDeleteOpt = SnapshotCleanup

  /** One request issued to the runtime service, with the options it carried. */
  datatype Call =
    | LookupTask                                      // cont.Task(ctx, cio.Load)
    | GetStatus                                       // task.Status(ctx)
    | TaskDelete(taskOpts: seq<TaskDeleteOpt>)        // task.Delete(ctx, opts...)
    | LookupImage                                     // cont.Image(ctx)
    | ContainerDelete(opts: seq<ContainerDeleteOpt>)  // cont.Delete(ctx, opts...)

  /** What the runtime service answers to each kind of call. Each kind is
      issued at most once per teardown, so one answer per kind is enough to
      describe one run. An answer does not depend on the options the call
      carries (snapshot cleanup, process kill). */
  datatype Answers = Answers(
    taskLookup: Reply<()>,
    taskStatus: Reply<Status>,
    taskDelete: Reply<()>,
    imageLookup: Reply<()>,
    containerDelete: Reply<()>)

  /** The runtime service: it answers from `answers` and records, in `log`,
      every request it receives, in order. */
  class Service {
    const answers: Answers
    var log: seq<Call>

    constructor (answers: Answers)
      ensures this.answers == answers && log == []
    {
      this.answers := answers;
      log := [];
    }

    method Task() returns (r: Reply<()>)
      modifies this
      ensures log == old(log) + [LookupTask]
      ensures r == answers.taskLookup
    {
      log := log + [LookupTask];
      r := answers.taskLookup;
    }

    method Status() returns (r: Reply<Status>)
      modifies this
      ensures log == old(log) + [GetStatus]
      ensures r == answers.taskStatus
    {
      log := log + [GetStatus];
      r := answers.taskStatus;
    }

    method DeleteTask(opts: seq<TaskDeleteOpt>) returns (r: Reply<()>)
      modifies this
      ensures log == old(log) + [TaskDelete(opts)]
      ensures r == answers.taskDelete
    {
      log := log + [TaskDelete(opts)];
      r := answers.taskDelete;
    }

    method Image() returns (r: Reply<()>)
      modifies this
      ensures log == old(log) + [LookupImage]
      ensures r == answers.imageLookup
    {
      log := log + [LookupImage];
      r := answers.imageLookup;
    }

    method DeleteContainer(opts: seq<ContainerDeleteOpt>) returns (r: Reply<()>)
      modifies this
      ensures log == old(log) + [ContainerDelete(opts)]
      ensures r == answers.containerDelete
    {
      log := log + [ContainerDelete(opts)];
      r := answers.containerDelete;
    }
  }
}
