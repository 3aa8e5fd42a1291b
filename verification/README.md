# cdebug containerd client: a verified model of its decision logic

This project models in Dafny the rules that `pkg/containerd/client.go` in cdebug adds on
top of the containerd client. The containerd calls are treated as inputs with abstract
outcomes:
- The task lookup, task delete, image lookup, container delete and the connection answer
  success, NotFound, or some other error. Each other error carries a code, so that
  "returned unchanged" can be stated.
- The status fetch answers a status or an error.
- The socket probe is a yes/no predicate.

The model states which calls the code makes, in what order, with which options, and
what it returns.

- `Runtime` (runtime.dfy) is the runtime service as one container and its task see it.
  The class `Service` answers each call from a fixed `Answers` record and appends the
  request, with its option list, to its `log`.
- `Teardown` (teardown.dfy) covers container removal: `ContainerRemoveEx`, `taskRemove`
  and `containerRemove`.
  - The functions `TaskRemoval`, `ContainerRemoval` and `TeardownRun` give, from the
    answers and `force`, the run: the calls issued and the error returned.
  - The methods `TaskRemove`, `ContainerRemove` and `ContainerRemoveEx` make those calls
    on a `Service`, with the same early returns and the same option-list building as the
    Go code. Each is proved to append exactly the specified calls to the log and to
    return the specified outcome.
  - The lemmas state the teardown rules about the specification.
- `Address` (address.dfy) covers `detectAddress`. It builds the candidate list and looks
  for the first accessible candidate with a loop. The loop is proved equal to the
  recursive `FirstAccessible`. The socket probe `isSocketAccessible` is the function
  parameter `accessible`.
- `Session` (session.dfy) covers `NewClient`: address detection, the namespace default,
  then the connection. The connection attempt `ctdclient.New` is the parameter `connect`.
  `Client.Namespace()` returns the `namespace` field of the `Client` datatype.
- `Pull` (pull.dfy) covers the reference normalisation at the start of `ImagePullEx`.

Two facts about the code are worth knowing:
- A NotFound from the container delete is returned, although a NotFound from the task
  delete is tolerated (`client.go:155`). This is stated by `Teardown.ContainerNotFoundReturned`.
- `ImagePullEx` waits for the progress goroutine only on success (`client.go:113-117`).
  The concurrency is not modelled (see below).

## Model

| member | source | states |
|---|---|---|
| `Runtime.Service.Task` | pkg/containerd/client.go:74 | the task lookup is recorded in the log and answers the scripted outcome |
| `Runtime.Service.Status` | pkg/containerd/client.go:126 | the status fetch is recorded and answers the scripted status or error |
| `Runtime.Service.DeleteTask` | pkg/containerd/client.go:132 | a task delete is recorded with the options it was given |
| `Runtime.Service.Image` | pkg/containerd/client.go:151 | the container's image lookup is recorded |
| `Runtime.Service.DeleteContainer` | pkg/containerd/client.go:155 | a container delete is recorded with the options it was given |
| `Teardown.TolerateNotFound` | pkg/containerd/client.go:132-135 | a task delete succeeds exactly when it answers ok or NotFound; any other error is returned as the runtime error it was |
| `Teardown.PassOn` | pkg/containerd/client.go:155 | the container delete's answer decides the outcome: success exactly on ok, otherwise that same error, NotFound included |
| `Teardown.CleanupOpts` | pkg/containerd/client.go:150-153 | the delete options hold snapshot cleanup if and only if the image lookup succeeds, and hold nothing else |
| `Teardown.TeardownRun` | pkg/containerd/client.go:69-87 | for all answers: the task lookup is the first call; a container delete can only be the last call; a successful teardown ends with the container delete; when a task exists, a task delete comes before any container delete |
| `Teardown.TaskRemoval` | pkg/containerd/client.go:121-147 | the status is fetched first; a task delete follows exactly when the status is known and the task is inactive or force is set, with the kill option exactly when it is active; the refusal comes exactly for an active task without force; success only after a delete answering ok or NotFound. Its rules inside a whole teardown are proved by `StatusFailureAborts`, `InactiveTaskPlainDelete`, `ActiveWithoutForceRefused` and `ActiveWithForceKills` |
| `Teardown.ContainerRemoval` | pkg/containerd/client.go:149-156 | the image lookup, then one container delete that asks for snapshot cleanup exactly when the image resolved; success exactly when that delete answers ok, otherwise its error unchanged. Its rules inside a whole teardown are proved by `ContainerNotFoundReturned` and `SnapshotCleanupIffImage` |
| `Teardown.TaskRemove` | pkg/containerd/client.go:121-147 | the method issues exactly the calls of `TaskRemoval` and returns its outcome |
| `Teardown.ContainerRemove` | pkg/containerd/client.go:149-156 | the method issues the image lookup, then the container delete with the options `CleanupOpts` gives, and returns its outcome |
| `Teardown.ContainerRemoveEx` | pkg/containerd/client.go:69-87 | the method issues exactly the calls of `TeardownRun`, in order, and returns its outcome |
| `Teardown.NoTaskSkipsTaskRemoval` | pkg/containerd/client.go:74-80 | a NotFound task lookup leads straight to image lookup and container delete, with no status fetch and no task delete; any other lookup error is returned after that single call |
| `Teardown.StatusFailureAborts` | pkg/containerd/client.go:126-129 | a failed status fetch is returned; neither the task nor the container is deleted |
| `Teardown.InactiveTaskPlainDelete` | pkg/containerd/client.go:131-136 | a Created or Stopped task is deleted without options, whatever `force` is; ok or NotFound continues to container removal; any other delete error is returned and the container is untouched |
| `Teardown.ActiveWithoutForceRefused` | pkg/containerd/client.go:138-140 | an active task without force gives the active-container error after the status fetch; no task or container delete is issued |
| `Teardown.ActiveWithForceKills` | pkg/containerd/client.go:142-146 | an active task with force is deleted with the process-kill option; NotFound is tolerated and any other error is returned |
| `Teardown.ActiveContainerErrorExactly` | pkg/containerd/client.go:131-140 | the active-container error is returned if and only if a task exists, its status is known and is neither Created nor Stopped, and force is off |
| `Teardown.ContainerDeletedLastAndPassedOn` | pkg/containerd/client.go:82-86 | the container is deleted if and only if there is no task or the task branch succeeded; that delete is then the last call and its answer is the outcome unchanged |
| `Teardown.SuccessExactly` | pkg/containerd/client.go:69-87 | teardown succeeds if and only if the container delete is reached and succeeds |
| `Teardown.ContainerNotFoundReturned` | pkg/containerd/client.go:155 | a NotFound from the container delete is never success; once that delete is reached, NotFound is the error returned |
| `Teardown.SnapshotCleanupIffImage` | pkg/containerd/client.go:150-155 | every container delete asks for snapshot cleanup if and only if the image lookup succeeded; for the same container-delete answer, the image answer changes neither the outcome nor the number of calls |
| `Teardown.ForceOnlyOverridesRefusal` | pkg/containerd/client.go:131-146 | wherever removal without force is not refused as active, force changes neither the calls nor the outcome |
| `Teardown.StoppedTaskScenario` | pkg/containerd/client.go:121-156 | Stopped task, no force, failed image lookup: the task is deleted without kill, then the container without snapshot cleanup |
| `Teardown.RunningForcedScenario` | pkg/containerd/client.go:121-156 | Running task, force, image resolved: the task is deleted with kill, then the container with snapshot cleanup |
| `Address.TrimPrefix` | pkg/containerd/client.go:161 | the result with the prefix put back in front is the input when the input starts with the prefix; otherwise the input is unchanged |
| `Address.Candidates` | pkg/containerd/client.go:159-162 | a non-empty explicit address is the only candidate, with `unix://` removed when present; otherwise the candidates are the two well-known paths |
| `Address.FirstAccessible` | pkg/containerd/client.go:164-170 | failure if and only if no candidate is accessible; a found address is accessible and sits at a position with no accessible candidate before it |
| `Address.DetectAddress` | pkg/containerd/client.go:158-171 | the loop over the candidates returns the first accessible candidate, or failure, as `FirstAccessible` defines it |
| `Address.ExplicitAddressIsSoleCandidate` | pkg/containerd/client.go:160-167 | with a non-empty explicit address the result is that address without `unix://` when it is accessible, and failure otherwise, whatever the well-known paths are |
| `Address.UnixSchemeStripped` | pkg/containerd/client.go:161 | `unix://` in front of a path is removed; a path without it is kept |
| `Address.WellKnownInOrder` | pkg/containerd/client.go:159-170 | with no explicit address the first well-known path wins when accessible, then the second, then failure |
| `Session.NamespaceFor` | pkg/containerd/client.go:43-46 | the namespace is the option when non-empty and "default" otherwise, so it is never empty |
| `Session.NewClient` | pkg/containerd/client.go:37-63 | a detection failure is returned first; the session opens if and only if an address is found and the connection to it, in the defaulted namespace, succeeds; a connection error is returned as is |
| `Session.OpenedSessionIsWellFormed` | pkg/containerd/client.go:37-62 | an opened session's address is an accessible candidate, and its namespace is non-empty and equals the given one when one was given |
| `Pull.NormalizeRef` | pkg/containerd/client.go:94-96 | the result contains ':' and starts with the reference; a reference containing ':' is unchanged; otherwise ":latest" is appended |
| `Pull.NormalizeRefIdempotent` | pkg/containerd/client.go:94-96 | normalising a normalised reference changes nothing |
| `Pull.NormalizeRefExamples` | pkg/containerd/client.go:94-96 | "alpine" becomes "alpine:latest"; "alpine:3.19" is kept |
| `Pull.RegistryPortCountsAsTag` | pkg/containerd/client.go:94-96 | a registry port counts as a tag: "localhost:5000/busybox" gets no default tag |

## Left out

- The progress goroutine of `ImagePullEx` is not modelled (`client.go:98-118`). This covers `context.WithCancel`, `content.NewJobs`, `content.ShowProgress`, the `progressCh` handshake and the pull call itself. That code is about concurrency and foreign I/O. Only the reference normalisation is modelled.
- `c.Pull` and its options (`WithPullUnpack`, `WithPlatform`) and `c.ContentStore()` are foreign library calls with I/O.
- The internals of `ctdclient.New` are not modelled. Its outcome is the `connect` parameter of `Session.NewClient`.
- The output sink (`opts.Out`, the `streams.NewOut(io.Discard)` default) is I/O plumbing and is not modelled.
- `isSocketAccessible` is a filesystem probe whose body is not part of this model. It is the uninterpreted parameter `accessible`.
- The `cio.Load` option of the task lookup attaches I/O and is not modelled.
- Error message texts are not modelled. The model only tells the active-container error apart from runtime errors passed through. The "cannot detect address" error is `NoAddressFound` / `NoAddress`.
- The `context.Context` arguments (deadlines, cancellation) are not modelled.
- Every call kind gets one scripted answer per teardown, because teardown issues each kind of call at most once.
- Teardown.SnapshotCleanupIffImage: call answers do not depend on the options the call carries (snapshot cleanup, process kill). In containerd a delete with snapshot cleanup also removes the snapshot, and that removal can fail where a plain delete would not. So "the image answer does not change the outcome" holds only for a fixed container-delete answer.
