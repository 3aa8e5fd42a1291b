/**
 * Container teardown (`ContainerRemoveEx`, `taskRemove`, `containerRemove`):
 * which runtime calls are issued, in what order, with which options, and
 * what the caller is told.
 *
 * The functions are the specification: from the runtime's answers and
 * `force` they give the run, that is the calls issued and the outcome
 * returned. Each method performs the calls on a `Runtime.Service` and is
 * proved to issue exactly the specified calls and return the specified
 * outcome: `TaskRemove` against `TaskRemoval`, `ContainerRemove` against
 * `ContainerRemoval`, and `ContainerRemoveEx` against `TeardownRun`. The
 * lemmas state the teardown rules about the specification.
 */
module Teardown {
  import opened Runtime

  /** The error a teardown returns: a runtime error passed through, or the
      "cannot remove active container" rejection raised by the client itself. */
  datatype Error = RuntimeFailure(cause: RuntimeError) | ActiveContainer

  /** A Go `error` result: nil, or an error. */
  datatype Outcome = Success | Failure(error: Error)

  /** The calls issued, in order, and the outcome returned. */
  datatype Run = Run(calls: seq<Call>, outcome: Outcome)

  /** A task in any status other than Created or Stopped needs a forced kill. */
  predicate IsActive(s: Status) {
    !(s == Created || s == Stopped)
  }

  /** The result of a task delete, where NotFound means "already gone". */
  function TolerateNotFound(r: Reply<()>): (o: Outcome)
    ensures o.Success? <==> r.Ok? || r.error == NotFound
    ensures o.Failure? ==> o.error == RuntimeFailure(r.error)
  {
    if r.Err? && r.error != NotFound then Failure(RuntimeFailure(r.error)) else Success
  }

  /** The result of a container delete: every error is passed on, NotFound included. */
  function PassOn(r: Reply<()>): (o: Outcome)
    ensures o.Success? <==> r.Ok?
    ensures o.Failure? ==> o.error == RuntimeFailure(r.error)
  {
    if r.Ok? then Success else Failure(RuntimeFailure(r.error))
  }

  /** The options of the container delete: snapshot cleanup when the image resolves. */
  function CleanupOpts(a: Answers): (opts: seq<ContainerDeleteOpt>)
    ensures SnapshotCleanup in opts <==> a.imageLookup.Ok?
    ensures |opts| <= 1
  {
    if a.imageLookup.Ok? then [SnapshotCleanup] else []
  }

  /** Specification of `taskRemove`. The status is always fetched first. A
      task delete follows exactly when the status is known and the task is
      inactive or `force` is set; it carries the kill option exactly when the
      task is active. The refusal is returned exactly when an active task
      meets `force == false`, and success only after a tolerated delete. */
  function TaskRemoval(a: Answers, force: bool): (r: Run)
    ensures 1 <= |r.calls| <= 2 && r.calls[0] == GetStatus
    ensures |r.calls| == 2 <==> a.taskStatus.Ok? && (force || !IsActive(a.taskStatus.value))
    ensures |r.calls| == 2 ==>
      r.calls[1].TaskDelete? && (ProcessKill in r.calls[1].taskOpts <==> IsActive(a.taskStatus.value))
    ensures r.outcome == Failure(ActiveContainer) <==>
      a.taskStatus.Ok? && IsActive(a.taskStatus.value) && !force
    ensures r.outcome.Success? <==> |r.calls| == 2 && (a.taskDelete.Ok? || a.taskDelete.error == NotFound)
  {
    match a.taskStatus
    case Err(e) => Run([GetStatus], Failure(RuntimeFailure(e)))
    case Ok(s) =>
      if !IsActive(s) then
        Run([GetStatus, TaskDelete([])], TolerateNotFound(a.taskDelete))
      else if !force then
        Run([GetStatus], Failure(ActiveContainer))
      else
        Run([GetStatus, TaskDelete([ProcessKill])], TolerateNotFound(a.taskDelete))
  }

  /** Specification of `containerRemove`. The image is looked up, then the
      container is deleted, with snapshot cleanup exactly when the image
      resolved; the delete's answer alone decides the outcome. */
  function ContainerRemoval(a: Answers): (r: Run)
    ensures |r.calls| == 2 && r.calls[0] == LookupImage && r.calls[1].ContainerDelete?
    ensures SnapshotCleanup in r.calls[1].opts <==> a.imageLookup.Ok?
    ensures r.outcome.Success? <==> a.containerDelete.Ok?
    ensures r.outcome.Failure? ==> r.outcome.error == RuntimeFailure(a.containerDelete.error)
  {
    Run([LookupImage, ContainerDelete(CleanupOpts(a))], PassOn(a.containerDelete))
  }

  /** True when the calls contain a container delete. */
  predicate DeletesContainer(calls: seq<Call>) {
    exists i :: 0 <= i < |calls| && calls[i].ContainerDelete?
  }

  /** True when the calls contain a task delete. */
  predicate DeletesTask(calls: seq<Call>) {
    exists i :: 0 <= i < |calls| && calls[i].TaskDelete?
  }

  /** True when the calls ask for the task's status. */
  predicate AsksStatus(calls: seq<Call>) {
    exists i :: 0 <= i < |calls| && calls[i] == GetStatus
  }

  /** Specification of `ContainerRemoveEx`. Whatever the answers: the task is
      looked up first; the container is deleted at most once and, when it is,
      as the very last call, after the task (if one exists) has been deleted;
      and a successful teardown always ends with the container delete. */
  function TeardownRun(a: Answers, force: bool): (r: Run)
    ensures |r.calls| >= 1 && r.calls[0] == LookupTask
    ensures forall i :: 0 <= i < |r.calls| - 1 ==> !r.calls[i].ContainerDelete?
    ensures r.outcome.Success? ==> r.calls[|r.calls| - 1].ContainerDelete?
    ensures forall j :: 0 <= j < |r.calls| && r.calls[j].ContainerDelete? && a.taskLookup.Ok? ==>
              exists i :: 0 <= i < j && r.calls[i].TaskDelete?
  {
    match a.taskLookup
    case Err(e) =>
      if e == NotFound then
        var c := ContainerRemoval(a);
        Run([LookupTask] + c.calls, c.outcome)
      else
        Run([LookupTask], Failure(RuntimeFailure(e)))
    case Ok(_) =>
      var t := TaskRemoval(a, force);
      if t.outcome.Failure? then
        Run([LookupTask] + t.calls, t.outcome)
      else
        var c := ContainerRemoval(a);
        var calls := [LookupTask] + t.calls + c.calls;
        assert calls[2].TaskDelete?;
        Run(calls, c.outcome)
  }

  /** `taskRemove`: the status is fetched, then the task is deleted, plainly
      or with a process kill, or the removal is refused. */
  method TaskRemove(svc: Service, force: bool) returns (o: Outcome)
    modifies svc
    ensures svc.log == old(svc.log) + TaskRemoval(svc.answers, force).calls
    ensures o == TaskRemoval(svc.answers, force).outcome
  {
    var status := svc.Status();
    if status.Err? {
      return Failure(RuntimeFailure(status.error));
    }
    if status.value == Created || status.value == Stopped {
      var r := svc.DeleteTask([]);
      if r.Err? && r.error != NotFound {
        return Failure(RuntimeFailure(r.error));
      }
      return Success;
    }
    if !force {
      return Failure(ActiveContainer);
    }
    var r := svc.DeleteTask([ProcessKill]);
    if r.Err? && r.error != NotFound {
      return Failure(RuntimeFailure(r.error));
    }
    return Success;
  }

  /** `containerRemove`: the option list starts empty and gets snapshot
      cleanup appended when the image resolves; then the container is deleted. */
  method ContainerRemove(svc: Service) returns (o: Outcome)
    modifies svc
    ensures svc.log == old(svc.log) + ContainerRemoval(svc.answers).calls
    ensures o == ContainerRemoval(svc.answers).outcome
  {
    var opts: seq<ContainerDeleteOpt> := [];
    var image := svc.Image();
    if image.Ok? {
      opts := opts + [SnapshotCleanup];
    }
    assert opts == CleanupOpts(svc.answers);
    var r := svc.DeleteContainer(opts);
    if r.Err? {
      return Failure(RuntimeFailure(r.error));
    }
    return Success;
  }

  /** `ContainerRemoveEx`: look up the task; without one, delete the container;
      with one, remove the task and only then the container. */
  method ContainerRemoveEx(svc: Service, force: bool) returns (o: Outcome)
    modifies svc
    ensures svc.log == old(svc.log) + TeardownRun(svc.answers, force).calls
    ensures o == TeardownRun(svc.answers, force).outcome
  {
    var task := svc.Task();
    if task.Err? {
      if task.error == NotFound {
        o := ContainerRemove(svc);
        return;
      }
      return Failure(RuntimeFailure(task.error));
    }
    o := TaskRemove(svc, force);
    if o.Failure? {
      return;
    }
    o := ContainerRemove(svc);
    assert svc.log == old(svc.log) + ([LookupTask] + TaskRemoval(svc.answers, force).calls
                                      + ContainerRemoval(svc.answers).calls);
  }

  // ---------------------------------------------------------------------------
  // The teardown rules, stated about the specification.

  /** Task lookup answering NotFound leads straight to container removal:
      no status fetch and no task delete. Any other lookup error is returned
      with no further call, so nothing is deleted. */
  lemma NoTaskSkipsTaskRemoval(a: Answers, force: bool)
    ensures a.taskLookup == Err(NotFound) ==>
      TeardownRun(a, force) == Run([LookupTask, LookupImage, ContainerDelete(CleanupOpts(a))],
                                PassOn(a.containerDelete))
    ensures a.taskLookup == Err(NotFound) ==>
      !AsksStatus(TeardownRun(a, force).calls) && !DeletesTask(TeardownRun(a, force).calls)
    ensures a.taskLookup.Err? && a.taskLookup.error != NotFound ==>
      TeardownRun(a, force) == Run([LookupTask], Failure(RuntimeFailure(a.taskLookup.error)))
  {
  }

  /** A failed status fetch is returned; neither the task nor the container is deleted. */
  lemma StatusFailureAborts(a: Answers, force: bool)
    requires a.taskLookup.Ok? && a.taskStatus.Err?
    ensures TeardownRun(a, force) == Run([LookupTask, GetStatus], Failure(RuntimeFailure(a.taskStatus.error)))
    ensures !DeletesTask(TeardownRun(a, force).calls) && !DeletesContainer(TeardownRun(a, force).calls)
  {
  }

  /** A Created or Stopped task is deleted without the kill option, whatever
      `force` is. NotFound from that delete counts as success and teardown
      goes on to the container; any other delete error is returned and the
      container is left alone. */
  lemma InactiveTaskPlainDelete(a: Answers, force: bool)
    requires a.taskLookup.Ok? && a.taskStatus.Ok? && !IsActive(a.taskStatus.value)
    ensures TeardownRun(a, force).calls[..3] == [LookupTask, GetStatus, TaskDelete([])]
    ensures a.taskDelete.Ok? || a.taskDelete.error == NotFound ==>
      TeardownRun(a, force) == Run([LookupTask, GetStatus, TaskDelete([]), LookupImage,
                                 ContainerDelete(CleanupOpts(a))], PassOn(a.containerDelete))
    ensures a.taskDelete.Err? && a.taskDelete.error != NotFound ==>
      TeardownRun(a, force) == Run([LookupTask, GetStatus, TaskDelete([])],
                                Failure(RuntimeFailure(a.taskDelete.error)))
  {
  }

  /** An active task without `force` is refused with the active-container
      error, before any delete is issued. */
  lemma ActiveWithoutForceRefused(a: Answers)
    requires a.taskLookup.Ok? && a.taskStatus.Ok? && IsActive(a.taskStatus.value)
    ensures TeardownRun(a, false) == Run([LookupTask, GetStatus], Failure(ActiveContainer))
    ensures !DeletesTask(TeardownRun(a, false).calls) && !DeletesContainer(TeardownRun(a, false).calls)
  {
  }

  /** An active task with `force` is deleted with the process-kill option.
      NotFound from that delete is tolerated; any other error is returned. */
  lemma ActiveWithForceKills(a: Answers)
    requires a.taskLookup.Ok? && a.taskStatus.Ok? && IsActive(a.taskStatus.value)
    ensures TeardownRun(a, true).calls[..3] == [LookupTask, GetStatus, TaskDelete([ProcessKill])]
    ensures a.taskDelete.Ok? || a.taskDelete.error == NotFound ==>
      TeardownRun(a, true) == Run([LookupTask, GetStatus, TaskDelete([ProcessKill]), LookupImage,
                                ContainerDelete(CleanupOpts(a))], PassOn(a.containerDelete))
    ensures a.taskDelete.Err? && a.taskDelete.error != NotFound ==>
      TeardownRun(a, true) == Run([LookupTask, GetStatus, TaskDelete([ProcessKill])],
                               Failure(RuntimeFailure(a.taskDelete.error)))
  {
  }

  /** The active-container error is returned exactly when a task exists, its
      status is neither Created nor Stopped, and `force` is off. */
  lemma ActiveContainerErrorExactly(a: Answers, force: bool)
    ensures TeardownRun(a, force).outcome == Failure(ActiveContainer) <==>
      a.taskLookup.Ok? && a.taskStatus.Ok? && IsActive(a.taskStatus.value) && !force
  {
  }

  /** The task branch succeeds: there is a task, its status is known, it may
      be removed, and its delete succeeds or answers NotFound. */
  predicate TaskBranchSucceeds(a: Answers, force: bool) {
    a.taskLookup.Ok? && a.taskStatus.Ok? && (force || !IsActive(a.taskStatus.value))
    && (a.taskDelete.Ok? || a.taskDelete.error == NotFound)
  }

  /** The container is deleted exactly when there is no task or the task
      branch succeeded; its delete is then the last call and decides the
      outcome unchanged (a NotFound from it is returned, not absorbed). */
  lemma ContainerDeletedLastAndPassedOn(a: Answers, force: bool)
    ensures DeletesContainer(TeardownRun(a, force).calls) <==>
      a.taskLookup == Err(NotFound) || TaskBranchSucceeds(a, force)
    ensures DeletesContainer(TeardownRun(a, force).calls) ==>
      TeardownRun(a, force).calls[|TeardownRun(a, force).calls| - 1] == ContainerDelete(CleanupOpts(a))
      && TeardownRun(a, force).outcome == PassOn(a.containerDelete)
  {
    var r := TeardownRun(a, force);
    if a.taskLookup == Err(NotFound) || TaskBranchSucceeds(a, force) {
      assert r.calls[|r.calls| - 1].ContainerDelete?;
    }
  }

  /** The whole teardown succeeds exactly when the container delete is
      reached and succeeds. */
  lemma SuccessExactly(a: Answers, force: bool)
    ensures TeardownRun(a, force).outcome.Success? <==>
      (a.taskLookup == Err(NotFound) || TaskBranchSucceeds(a, force)) && a.containerDelete.Ok?
  {
  }

  /** NotFound from the container delete is not absorbed: the teardown
      returns it, even though the task branch tolerates the same answer. */
  lemma ContainerNotFoundReturned(a: Answers, force: bool)
    requires a.containerDelete == Err(NotFound)
    ensures TeardownRun(a, force).outcome != Success
    ensures a.taskLookup == Err(NotFound) || TaskBranchSucceeds(a, force) ==>
      TeardownRun(a, force).outcome == Failure(RuntimeFailure(NotFound))
  {
  }

  /** Snapshot cleanup is requested on the container delete if and only if
      the image lookup succeeds. For the same container-delete answer, the
      image answer changes neither the outcome nor the number of calls: a
      failed image lookup is never itself an error. */
  lemma SnapshotCleanupIffImage(a: Answers, force: bool, image: Reply<()>)
    ensures forall i :: 0 <= i < |TeardownRun(a, force).calls| && TeardownRun(a, force).calls[i].ContainerDelete? ==>
      (SnapshotCleanup in TeardownRun(a, force).calls[i].opts <==> a.imageLookup.Ok?)
    ensures TeardownRun(a.(imageLookup := image), force).outcome == TeardownRun(a, force).outcome
    ensures |TeardownRun(a.(imageLookup := image), force).calls| == |TeardownRun(a, force).calls|
  {
  }

  /** `force` only turns the active-container refusal into a forced delete:
      wherever the teardown without force is not refused, force changes nothing. */
  lemma ForceOnlyOverridesRefusal(a: Answers)
    requires TeardownRun(a, false).outcome != Failure(ActiveContainer)
    ensures TeardownRun(a, true) == TeardownRun(a, false)
  {
  }

  /** Scenario: a Stopped task, no force, image lookup fails: the task is
      deleted without kill and the container without snapshot cleanup. */
  lemma StoppedTaskScenario(a: Answers)
    requires a.taskLookup.Ok? && a.taskStatus == Ok(Stopped) && a.taskDelete.Ok?
    requires a.imageLookup.Err? && a.containerDelete.Ok?
    ensures TeardownRun(a, false) == Run([LookupTask, GetStatus, TaskDelete([]), LookupImage,
                                       ContainerDelete([])], Success)
  {
  }

  /** Scenario: a Running task, force, image lookup succeeds: the task is
      killed and deleted, then the container is deleted with snapshot cleanup. */
  lemma RunningForcedScenario(a: Answers)
    requires a.taskLookup.Ok? && a.taskStatus == Ok(Running) && a.taskDelete.Ok?
    requires a.imageLookup.Ok? && a.containerDelete.Ok?
    ensures TeardownRun(a, true) == Run([LookupTask, GetStatus, TaskDelete([ProcessKill]), LookupImage,
                                      ContainerDelete([SnapshotCleanup])], Success)
  {
  }
}
