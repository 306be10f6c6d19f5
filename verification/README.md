# Verified model of the Ruflo OS control plane and runtime

Ruflo OS lets agents act on a desktop. This project models the parts of it that decide what may
happen, when, and in which order, and proves what they promise. Run `dafny verify dfyconfig.toml`.

| file | what it models |
|---|---|
| Schedule.dfy | the scheduling rules both orchestration engines share: a transition system over tasks, dependencies, statuses and retry counters, with an oracle for the outcome of every attempt |
| ControlPlane.dfy, PlanRuns.dfy | the control plane's engine, which hands out ready steps and is told how they went; its calls are moves of that system |
| Workflow.dfy | the workflow engine, which runs all ready nodes in rounds; its loop is a run of that system |
| RateLimiter.dfy | the write path of the virtual input driver, in machine arithmetic |
| AuditChain.dfy | the hash-chained audit log |
| Approval.dfy | the approval broker under every interleaving of requests, decisions, timers and resumptions |
| TreeWalk.dfy, Decimal.dfy | the search of the accessibility tree |
| Tiling.dfy | the window tiler |
| Sandbox.dfy | sandbox policies, their templates, and the life cycle of a sandbox |
| Policy.dfy | the policy evaluator and the default rules |
| Budget.dfy | token and cost budgets |
| StableSort.dfy, History.dfy, Memory.dfy | the task history pages and the recall of memories, both over a stable sort |
| Wrappers.dfy, Positions.dfy, Sublists.dfy, Substrings.dfy, Arithmetic.dfy | optional values, looking up names in lists, parts of lists and of texts, products and quotients |

Objects whose fields change are classes, and every method is proved against functions on plain
values; the theorems are about those functions and about all runs of them. What an operation returns is
said besides in words of its own: by the places of a list that it keeps, by the numbers and texts of the
source, or by a chain of children, never only by the function that computes it. Fresh ids, times and the
outcomes of attempts are parameters.

## What the proofs show about the code

- **A failed workflow never ends.** `execute_workflow` leaves its loop exactly when the dependencies
  have no cycle and every node that another one depends on exists and succeeds within its attempts
  (`Workflow.LoopExits`). Nothing in the engine rules the other cases out. A missing dependency that is
  reached raises. Otherwise nodes stay pending behind a failed one, or behind each other, nothing is
  ready, and the loop sleeps and asks again for ever; `Workflow.FirstFailsSpins` and
  `Workflow.RingSpins` are an example of each. Workflows made by `create_workflow` are chains, so this
  happens whenever a node other than the last exhausts its retries (`Workflow.ChainExits`). The log
  line for an incomplete workflow is reached only when the failed nodes are ones nothing depends on.
- **An accepted approval can be lost.** `decide` can run after the timer of a request has fired and
  before the requester resumes. It returns True, and the requester then overwrites the decision with
  a timeout. An accepted decision stands exactly when the wait does not resume expired
  (`Approval.AcceptedDecision`), which is so whenever its timer does not fire
  (`Approval.TimelyDecisionStands`) and never once it has (`Approval.LateDecisionLost`). Approval is
  never invented, though: a request comes back approved only if its action is automatic or an
  approving `decide` returned True.
- **The rate limit can wrap.** The driver multiplies `rate_limit_us` by 1000 in 32 bits. The configured
  gap is kept if and only if that product fits (`RateLimiter.NominalGapKeptIff`); the value the module
  sets, 1000, does.
- **A zero limit on audit entries returns them all**, since `entries[-0:]` is the whole list
  (`AuditChain.FromEndIsSuffix`).
- **Pausing and resuming a sandbox never does anything**, since no caller can ever see it running
  (`Sandboxes.LifeCycle`).
- **An empty rule list means the default rules**, since `rules or DEFAULT_RULES` takes it for missing
  (`Policy.NoRulesMeansDefaults`).
- **A policy pattern accepts one final newline**, so `delete_file` with a newline needs approval like
  `delete_file` (`Policy.MatchesCore`, `Policy.FileOpsDecided`).

## Reading the model

- *Attempts.* `Begin` and `Finish` are the two halves of an attempt that other tasks interleave with,
  as under `asyncio.gather`; `Attempt` is a whole one. The workflow engine's nodes run to their end
  without giving up control, so a round is modelled as one attempt after another, and
  `Schedule.Confluence` covers all other orders. A missing backend and any exception of an action
  count as a failed attempt.
- *Driver discipline.* `complete_step` and `fail_step` check no status. Their contracts hold for all
  calls; the run theorems are about drivers that report on steps which `get_ready_steps` would return.
  Their safety and termination hold whatever they report.
- *Waiting for ever.* Dafny methods end, so where the loop of `execute_workflow` would sleep and ask
  again without anything having changed, the model returns `Spins` instead.
- *State that is handed over.* `ExecuteWorkflow` starts from a workflow with nothing running whose
  counters agree with the oracle: a new one, or one left by an earlier run.
- *Timers.* With `asyncio.wait_for`, a timer may fire after the event was set and before the
  requester runs; whether that ends in a timeout differs between Python versions, so both are allowed.
- *Hashing.* The hash is an arbitrary function of the seven hashed fields. Nothing is claimed of
  `agent_type` and `details`, which are not hashed.
- *Sandbox fields.* A policy is a list of attributes in declaration order, with lists held by
  reference. The life cycle calls contain no point where other code could run, so each is one step.
- *Statuses never used.* BLOCKED, READY, WAITING_APPROVAL and CANCELLED are declared by the engines but
  assigned by none of the modelled code.
- *Patterns.* A default rule is given by its literals and its prefixes; the order of the alternatives
  of a pattern does not matter for whether it matches.

## Model

| member | source | states |
|---|---|---|
| Schedule.ApplyInv | orchestration/workflow-engine/src/engine.py:180-205 | every begin, finish or whole attempt keeps the invariant: the retry counter counts exactly the failed attempts, a failed task has used its whole allowance and a live one has not, and a started task has all dependencies completed; and it leaves every finished task as it was |
| Schedule.RunInv | orchestration/workflow-engine/src/engine.py:161-205 | dependency safety over all runs, with attempts interleaved in any way: in every reachable state a running, completed or failed task has all its dependencies completed, and what is finished stays finished |
| Schedule.StepAgrees | control-plane/src/ruflo_control_plane/orchestrator/engine.py:88-95 | no single step can finish a task otherwise than any terminal state of the same tasks has it |
| Schedule.Confluence | orchestration/workflow-engine/src/engine.py:161-170 | any two maximal runs of the same tasks under the same outcomes end in the same statuses and retry counters, in whatever order or interleaving; cycles and missing dependencies allowed |
| Schedule.TerminalIsVerdict | orchestration/workflow-engine/src/engine.py:197-205 | every maximal run ends completed where all dependencies completed and one of the first max(1, max_retries) attempts succeeds, failed where they completed and none does, pending otherwise |
| Schedule.VerdictUnique | orchestration/workflow-engine/src/engine.py:58-71 | on an acyclic graph that status equation has exactly one solution |
| Schedule.Progress | control-plane/src/ruflo_control_plane/orchestrator/engine.py:88-95 | on an acyclic graph with nothing running, no task is ready exactly when every pending task has a transitive dependency that failed or does not exist |
| Schedule.CompletesIff | orchestration/workflow-engine/src/engine.py:80-81 | on every graph a maximal run completes every task exactly when the dependencies have no cycle and miss nothing and no task fails all its attempts |
| Schedule.NothingPendingIff | orchestration/workflow-engine/src/engine.py:73-78 | on every graph a maximal run leaves nothing pending exactly when the dependencies have no cycle and every task that another one depends on exists and succeeds within its attempts |
| Schedule.StepWork | orchestration/workflow-engine/src/engine.py:197-205 | the termination measure: each step uses up at least its share of the work its task can still cause |
| Schedule.RunsAreBounded | orchestration/workflow-engine/src/engine.py:161-170 | no run makes more attempts than the sum of max(1, max_retries) over the tasks, nor takes more than twice as many steps |
| Schedule.CompletionsAreOrdered | control-plane/src/ruflo_control_plane/orchestrator/engine.py:97-107 | the log of completions of any run lists each completed task once, after all its dependencies |
| Schedule.DoneIsAcyclic | orchestration/workflow-engine/src/engine.py:73-78 | a run that leaves nothing pending proves the dependencies free of cycles and gaps |
| Schedule.ChainOneReady | control-plane/src/ruflo_control_plane/orchestrator/engine.py:74-75 | on a chain of any length no reachable state has two ready tasks |
| ControlPlane.TaskStep.RecordFailure | control-plane/src/ruflo_control_plane/orchestrator/engine.py:116-123 | a failure is counted; the step is pending again while the count stays below the allowance and failed from then on; the result says which |
| ControlPlane.OrchestratorEngine.LinkChain | control-plane/src/ruflo_control_plane/orchestrator/engine.py:74-75 | for a list of any length every step but the first comes to depend on exactly its predecessor, nothing else changing |
| ControlPlane.OrchestratorEngine.Decompose | control-plane/src/ruflo_control_plane/orchestrator/engine.py:61-80 | registers a new plan of four fresh unstarted steps with the template descriptions and agents, linked into a chain, in place of a plan of the same id |
| ControlPlane.OrchestratorEngine.GetReadySteps | control-plane/src/ruflo_control_plane/orchestrator/engine.py:82-95 | the pending steps whose dependencies are all ids of completed steps, each once and in plan order; none for an unknown plan |
| ControlPlane.ReadyIsExact | control-plane/src/ruflo_control_plane/orchestrator/engine.py:90-95 | as a list of places in the plan: strictly increasing, and exactly the places of the ready steps |
| ControlPlane.OrchestratorEngine.CompleteStep | control-plane/src/ruflo_control_plane/orchestrator/engine.py:97-107 | the first step of that id is completed with the result and all others are untouched; unknown ids change nothing |
| ControlPlane.OrchestratorEngine.FailStep | control-plane/src/ruflo_control_plane/orchestrator/engine.py:109-124 | the first step of that id takes a failure, all others are untouched, and the answer is whether a retry is left; False for unknown ids |
| ControlPlane.CompletingIs | control-plane/src/ruflo_control_plane/orchestrator/engine.py:102-107 | a completion report sets the first step of that id to completed with the result, keeping its dependencies and counters |
| ControlPlane.FailingIs | control-plane/src/ruflo_control_plane/orchestrator/engine.py:114-123 | a failure report adds one to the retries of the first step of that id; it is pending again exactly while the sum stays below the allowance, which is also the answer |
| ControlPlane.UnknownIdChangesNothing | control-plane/src/ruflo_control_plane/orchestrator/engine.py:109-124 | a report on an id that no step has changes nothing and leaves no retry |
| PlanRuns.ReadyAreEnabled | control-plane/src/ruflo_control_plane/orchestrator/engine.py:90-95 | a step is handed out exactly when the transition system allows an attempt at it |
| PlanRuns.CallIsAttempt | control-plane/src/ruflo_control_plane/orchestrator/engine.py:97-124 | a call that reports the outcome of a ready step is one attempt of the transition system and leaves dependencies and allowances alone |
| PlanRuns.CallsAreRun | control-plane/src/ruflo_control_plane/orchestrator/engine.py:82-124 | any sequence of such calls is a run of the transition system |
| PlanRuns.DriversAgree | control-plane/src/ruflo_control_plane/orchestrator/engine.py:82-124 | two drivers that report on ready steps in different orders until none is ready leave the same statuses and retry counts |
| PlanRuns.NeverRunning | control-plane/src/ruflo_control_plane/orchestrator/engine.py:97-124 | no sequence of calls leaves a step running |
| PlanRuns.RecordedIsObeyed | control-plane/src/ruflo_control_plane/orchestrator/engine.py:82-124 | reports on ready steps never report an attempt twice, so any sequence of them agrees with some oracle |
| PlanRuns.AnyDriverRuns | control-plane/src/ruflo_control_plane/orchestrator/engine.py:82-124 | whatever a driver reports on ready steps of a fresh plan, its calls are a run of the transition system |
| PlanRuns.AnyDriverIsSafe | control-plane/src/ruflo_control_plane/orchestrator/engine.py:82-124 | for every such driver a completed or failed step has all its dependencies completed |
| PlanRuns.AnyDriverStops | control-plane/src/ruflo_control_plane/orchestrator/engine.py:82-124 | no such driver can make more reports than the sum of max(1, max_retries) over the steps |
| PlanRuns.OneStepAtATime | control-plane/src/ruflo_control_plane/orchestrator/engine.py:74-75 | in a plan of any length built by the decomposition loop, whatever was reported so far on ready steps, at most one step is ready |
| Workflow.TaskNode.Execute | orchestration/workflow-engine/src/engine.py:180-205 | an execution stores the result and completes the node, or stores the error, counts the failure and makes the node pending or failed as its allowance says |
| Workflow.ScanIsReady | orchestration/workflow-engine/src/engine.py:62-70 | the short-circuiting lookup of dependencies finds a node ready exactly when the transition system allows an attempt |
| Workflow.ClosedNeverRaises | orchestration/workflow-engine/src/engine.py:65-68 | when every named dependency exists, asking for ready nodes never raises |
| Workflow.WorkflowDAG.GetReadyNodes | orchestration/workflow-engine/src/engine.py:58-71 | the ready nodes, each once and in dictionary order, or a KeyError exactly when some pending node looks up a missing dependency before an uncompleted one |
| Workflow.RaisesIff | orchestration/workflow-engine/src/engine.py:62-68 | it raises exactly when some pending node names a dependency that does not exist and every dependency it names earlier is completed |
| Workflow.WorkflowDAG.HasPendingWork | orchestration/workflow-engine/src/engine.py:73-78 | true exactly when a node is pending or running |
| Workflow.WorkflowDAG.AllNodesCompleted | orchestration/workflow-engine/src/engine.py:80-81 | true exactly when every node is completed |
| Workflow.WorkflowDAG.ExecuteNode | orchestration/workflow-engine/src/engine.py:180-205 | one attempt of the transition system at one node, all others unchanged |
| Workflow.WorkflowEngine.AddSequentialEdges | orchestration/workflow-engine/src/engine.py:113-118 | a node without dependencies comes to depend on its predecessor, one with dependencies keeps them |
| Workflow.WorkflowEngine.CreateWorkflow | orchestration/workflow-engine/src/engine.py:101-122 | registers a new workflow of five unstarted nodes for the template agents, in which each depends on exactly the one before |
| Workflow.WorkflowEngine.RunRound | orchestration/workflow-engine/src/engine.py:168-170 | a round attempts every node of the ready list once and is a run of the transition system |
| Workflow.RoundWorks | orchestration/workflow-engine/src/engine.py:161-170 | a round uses up work, so rounds cannot go on for ever, and leaves nothing running |
| Workflow.WorkflowEngine.Pass | orchestration/workflow-engine/src/engine.py:161-170 | a pass of the loop raises, finds nothing ready and changes nothing, or makes progress |
| Workflow.WorkflowEngine.ExecuteWorkflow | orchestration/workflow-engine/src/engine.py:151-177 | what the loop does is a run of the transition system; it ends with nothing pending or running and the right report, or raises on a missing dependency, or is stuck with pending work and nothing ready |
| Workflow.LoopExits | orchestration/workflow-engine/src/engine.py:161-177 | on every graph the loop ends exactly when the dependencies have no cycle and every node that another one depends on exists and succeeds; it reports completion exactly when besides every node succeeds; it raises only if a dependency is missing, and otherwise waits for ever |
| Workflow.LoopRaises | orchestration/workflow-engine/src/engine.py:65-68 | it raises exactly when at the end of any maximal run some node looks up a missing dependency, all earlier ones being completed, whatever rounds came first |
| Workflow.RingSpins | orchestration/workflow-engine/src/engine.py:161-166 | two nodes that wait for each other keep the loop waiting although nothing is missing and nothing can fail |
| Workflow.FirstFailsSpins | orchestration/workflow-engine/src/engine.py:161-166 | one run: the first of five chained nodes fails three times and the loop waits for ever |
| Workflow.ChainExits | orchestration/workflow-engine/src/engine.py:113-118 | a workflow that is a chain waits for ever exactly when some node other than the last exhausts its attempts |
| RateLimiter.InputDevice.Write | kernel/modules/ruflo_input/ruflo_input.c:40-66 | short writes and unreadable buffers are refused without a trace; of the others exactly those too soon after the last accepted one are refused, in 64-bit difference and 32-bit product, and only an accepted one moves the clock |
| RateLimiter.AcceptedSpaced | kernel/modules/ruflo_input/ruflo_input.c:53-56 | on a monotone clock accepted injections are pairwise at least the enforced gap apart, and that far after the initial time |
| RateLimiter.GreedyOptimal | kernel/modules/ruflo_input/ruflo_input.c:52-65 | no selection of the attempts that respects the gap is larger than the set the driver accepts |
| RateLimiter.AcceptedIsChoice | kernel/modules/ruflo_input/ruflo_input.c:52-65 | the set the driver accepts is one of those selections |
| RateLimiter.WindowBound | kernel/modules/ruflo_input/ruflo_input.c:53-56 | any window from a to b holds at most (b - a) / gap + 1 injections |
| RateLimiter.RefusalsDoNotDelay | kernel/modules/ruflo_input/ruflo_input.c:63-65 | with the refused writes removed, exactly the same injections are accepted |
| RateLimiter.NominalGapKeptIff | kernel/modules/ruflo_input/ruflo_input.c:54 | the configured gap is kept in all runs if and only if rate_limit_us * 1000 does not overflow 32 bits |
| RateLimiter.WrapExample | kernel/modules/ruflo_input/ruflo_input.c:54 | a limit of 4294968 microseconds lets events through after 704 nanoseconds |
| AuditChain.AuditService.Log | control-plane/src/ruflo_control_plane/audit/service.py:56-84 | appends one entry chained to the last hash and hashed over its own fields, and keeps the log consistent |
| AuditChain.AuditService.VerifyChain | control-plane/src/ruflo_control_plane/audit/service.py:86-101 | true exactly on the logs in which every entry stores the hash of its fields and the hash stored before it |
| AuditChain.AuditService.GetEntries | control-plane/src/ruflo_control_plane/audit/service.py:103-115 | the entries of the task and the event type asked for, if any, in log order and cut like a negative slice: the last ones, all for a limit of zero, all but the first ones for a negative limit |
| AuditChain.MatchingIsExact | control-plane/src/ruflo_control_plane/audit/service.py:110-114 | the filtered list holds exactly the entries with the task and the event type asked for, at increasing places of the log; a missing or empty filter lets everything pass |
| AuditChain.FiltersCompose | control-plane/src/ruflo_control_plane/audit/service.py:111-114 | one filter after the other keeps what both together keep |
| AuditChain.FromEndIsSuffix | control-plane/src/ruflo_control_plane/audit/service.py:115 | the cut is a suffix: of that length for a positive limit, everything for a limit of zero, all but the first ones for a negative limit |
| AuditChain.PrefixIsChain | control-plane/src/ruflo_control_plane/audit/service.py:86-101 | every prefix of a log that verifies verifies |
| AuditChain.CompareIsSound | control-plane/src/ruflo_control_plane/audit/service.py:31-42 | two logs that verify and share the last hash are equal in every hashed field of every entry, or yield two of their entries that differ and hash alike, or an entry that hashes to the genesis value |
| AuditChain.TamperingShows | control-plane/src/ruflo_control_plane/audit/service.py:92-99 | changing hashed fields of one entry without rehashing goes unnoticed exactly when old and new fields collide with the link unchanged |
| AuditChain.RehashingShows | control-plane/src/ruflo_control_plane/audit/service.py:92-99 | rehashing the changed entry goes unnoticed before the end exactly on a collision, and at the end exactly when the link is kept |
| Approval.ApprovalBroker.Submit | control-plane/src/ruflo_control_plane/approval/broker.py:56-79 | read_file, list_directory, get_time and screenshot are approved at once and never tracked; any other action becomes a tracked pending request |
| Approval.ApprovalBroker.SubmitDecision | control-plane/src/ruflo_control_plane/approval/broker.py:90-105 | accepted exactly when the request is tracked and undecided; then it carries the decision and its event is set, otherwise nothing changes |
| Approval.ApprovalBroker.ResumeRequest | control-plane/src/ruflo_control_plane/approval/broker.py:81-88 | an expired wait makes the request timed out, any other returns it as it is |
| Approval.ApprovalBroker.FireTimer | control-plane/src/ruflo_control_plane/approval/broker.py:81-84 | the timer of a waiting request fires without touching the broker |
| Approval.ApprovalBroker.PerformAll | control-plane/src/ruflo_control_plane/approval/broker.py:56-105 | the broker can go through every run of the protocol, with the state the protocol says |
| Approval.StepInv | control-plane/src/ruflo_control_plane/approval/broker.py:56-105 | every request, decision, timer and resumption keeps the request states consistent, and a returned request is settled |
| Approval.RunInv | control-plane/src/ruflo_control_plane/approval/broker.py:56-105 | under every interleaving a returned request is never pending and never changes again |
| Approval.DecidedAtMostOnce | control-plane/src/ruflo_control_plane/approval/broker.py:90-105 | along any run at most one decide on a request returns True |
| Approval.ReturnedRequests | control-plane/src/ruflo_control_plane/approval/broker.py:56-105 | from the empty broker under every interleaving: a returned request is approved only if its action is automatic or an approving decide returned True, rejected only if a rejecting one did, and timed out exactly when its wait expired |
| Approval.AcceptedDecision | control-plane/src/ruflo_control_plane/approval/broker.py:81-88 | an accepted decision is what the request ends up with if and only if the wait does not resume expired |
| Approval.TimelyDecisionStands | control-plane/src/ruflo_control_plane/approval/broker.py:81-88 | an accepted decision stands when the timer had not fired by then and does not fire later |
| Approval.LateDecisionLost | control-plane/src/ruflo_control_plane/approval/broker.py:84-85 | a decision accepted after the timer fired is always replaced by a timeout |
| Approval.LostApprovalExample | control-plane/src/ruflo_control_plane/approval/broker.py:81-105 | one run: decide returns True for an approval and the requester finds its request timed out |
| TreeWalk.ATSPIClient.WalkTree | accessibility/src/ruflo_accessibility/atspi/client.py:148-173 | the walk appends to the shared list exactly what the bounded enumeration of the subtree lists, and nothing else |
| TreeWalk.ATSPIClient.Find | accessibility/src/ruflo_accessibility/atspi/client.py:67-97 | searches the applications that pass the name filter in order; nothing when the service is missing |
| TreeWalk.ATSPIClient.FindByRole | accessibility/src/ruflo_accessibility/atspi/client.py:67-81 | the results are the objects of that role at most 15 levels below an application of the given name, or any, reached through child indices below 100: each once, in preorder, described truly and under a path of its own; nothing without the service |
| TreeWalk.ATSPIClient.FindByName | accessibility/src/ruflo_accessibility/atspi/client.py:83-97 | the same search for the objects whose lower-cased name contains the lower-cased given one, or in the exact form for those whose name is equal to it |
| TreeWalk.TrailListed | accessibility/src/ruflo_accessibility/atspi/client.py:148-159 | an index path is listed exactly when it leads to a matching object within the depth and width bounds |
| TreeWalk.TrailsOrdered | accessibility/src/ruflo_accessibility/atspi/client.py:154-157 | listed paths come in preorder |
| TreeWalk.HitListed | accessibility/src/ruflo_accessibility/atspi/client.py:74-78 | hits are exactly the matching objects at most 15 levels below an admitted application, reached through child indices below 100 |
| TreeWalk.WalkReports | accessibility/src/ruflo_accessibility/atspi/client.py:148-173 | the nodes a walk reports are those of the listed paths, one for one, with the paths written out |
| TreeWalk.RenderInjective | accessibility/src/ruflo_accessibility/atspi/client.py:157 | different index paths are written as different strings |
| TreeWalk.SearchIsEnumeration | accessibility/src/ruflo_accessibility/atspi/client.py:67-97 | a search reports exactly the hits, each once, in preorder; each reported path leads back to the reported object, and no two are equal |
| TreeWalk.FindIsSearch | accessibility/src/ruflo_accessibility/atspi/client.py:67-97 | the search, said without the walk: its results are in preorder exactly the objects that a chain of children below an admitted application leads to and that pass the test |
| TreeWalk.RenderExample | accessibility/src/ruflo_accessibility/atspi/client.py:76-78 | the path of the fourth child of the thirteenth child of the first application is /0/12/3 |
| Decimal.TextInjective | accessibility/src/ruflo_accessibility/atspi/client.py:78 | different numbers are written differently |
| Tiling.TilingManager.TileWindows | ruflo-shell/window-manager/tiling.py:27-43 | in the master-stack layout the first window fills the left half and the others stand in the right half from the top down in their order, all of the same height; in any other layout nothing moves |
| Tiling.TilingManager.AddWindow | ruflo-shell/window-manager/tiling.py:14-21 | the new window, untiled so far, goes last under its id and title, and everything is tiled again |
| Tiling.TilingManager.RemoveWindow | ruflo-shell/window-manager/tiling.py:23-25 | all windows of that id leave, the others keep their order and are tiled again |
| Tiling.TilingManager.ChangeLayout | ruflo-shell/window-manager/tiling.py:47-49 | the layout changes and the same windows are tiled again |
| Tiling.AlwaysSettled | ruflo-shell/window-manager/tiling.py:14-49 | after any sequence of additions, removals and layout changes, in the master-stack layout every window stands in its place |
| Tiling.RetiledIsStacked | ruflo-shell/window-manager/tiling.py:31-43 | tiling puts the first window at 0, 0 with 960 by 1080, the second at 960, 0, and every later one directly below the one before it, all of height 1080 div (n - 1) |
| Tiling.AlwaysStacked | ruflo-shell/window-manager/tiling.py:14-49 | after any sequence of operations from the empty desk the windows stand so whenever the layout is master-stack |
| Tiling.RemovalIsExact | ruflo-shell/window-manager/tiling.py:24 | a removal keeps exactly the windows of other ids, each once and in their order |
| Tiling.RetilingKeeps | ruflo-shell/window-manager/tiling.py:27-43 | tiling keeps ids, titles and order, and tiling again changes nothing |
| Tiling.InsideScreen | ruflo-shell/window-manager/tiling.py:31-43 | every tiled window lies inside the 1920 by 1080 screen |
| Tiling.NoOverlap | ruflo-shell/window-manager/tiling.py:31-43 | no pixel belongs to two tiled windows |
| Tiling.Coverage | ruflo-shell/window-manager/tiling.py:38-42 | with k stacked windows exactly the last 1080 mod k rows of the right half stay uncovered, and nothing of the left half |
| SandboxPolicies.SandboxPolicy.Apply | runtime/src/ruflo_runtime/sandbox/manager.py:71-74 | overrides of existing fields are assigned in turn, others are passed over |
| SandboxPolicies.OverridesDecide | runtime/src/ruflo_runtime/sandbox/manager.py:71-74 | a field ends up with the last override that names it, or with the value it had |
| SandboxPolicies.AssignedShows | runtime/src/ruflo_runtime/sandbox/manager.py:71-74 | overriding a policy overrides what it shows and brings in no list but those passed in |
| SandboxPolicies.OverridesInWords | runtime/src/ruflo_runtime/sandbox/manager.py:71-74 | a field that no override names keeps its value; one that is named has the value of the last override that names it |
| SandboxPolicies.DefaultWritten | runtime/src/ruflo_runtime/sandbox/policy.py:63-67 | every field of the default template: network for all hosts, the general limits |
| SandboxPolicies.RestrictedWritten | runtime/src/ruflo_runtime/sandbox/policy.py:69-77 | every field of the restricted template: no network, 16 processes, 512 MB, 4096 tokens, 120 seconds |
| SandboxPolicies.NetworkOnlyWritten | runtime/src/ruflo_runtime/sandbox/policy.py:79-85 | every field of the network_only template: network for all hosts, nothing writable |
| SandboxPolicies.OfflineWritten | runtime/src/ruflo_runtime/sandbox/policy.py:87-93 | every field of the offline template: neither network nor inference, 1024 MB, 60 seconds |
| SandboxPolicies.CodingWritten | runtime/src/ruflo_runtime/sandbox/policy.py:95-104 | every field of the coding template: four hosts, three ports, 4096 MB, 128 processes, 16384 tokens, 600 seconds |
| SandboxPolicies.BrowserWritten | runtime/src/ruflo_runtime/sandbox/policy.py:106-113 | every field of the browser template: network for all hosts, downloads writable, 4096 MB |
| SandboxPolicies.TemplateNamesWritten | runtime/src/ruflo_runtime/sandbox/policy.py:63-113 | these six are all templates |
| SandboxPolicies.FieldsByName | runtime/src/ruflo_runtime/sandbox/policy.py:16-50 | the names and the values of a policy correspond one by one, in declaration order |
| SandboxPolicies.PositionIs | runtime/src/ruflo_runtime/sandbox/policy.py:16-50 | a field name leads to the field at its own place and to no other |
| SandboxPolicies.Copy | runtime/src/ruflo_runtime/sandbox/policy.py:125-146 | a copy shows the same values, and all its lists are new and different from each other |
| SandboxPolicies.PolicyTemplate.InitTemplates | runtime/src/ruflo_runtime/sandbox/policy.py:58-113 | the first use sets up every template with its own lists, later uses change nothing |
| SandboxPolicies.PolicyTemplate.Get | runtime/src/ruflo_runtime/sandbox/policy.py:115-146 | a known name gives a new policy that shows exactly what the template was defined to show and shares no list with a template or with anything older; an unknown name gives nothing |
| Sandboxes.SandboxManager.Create | runtime/src/ruflo_runtime/sandbox/manager.py:57-91 | an unprivileged sandbox that is ready, with a working directory named by at most eight characters of the task id and a policy of its own that shows the template with the overrides applied; under a new id it goes last; an unknown template leaves the registry alone |
| Sandboxes.SandboxManager.Execute | runtime/src/ruflo_runtime/sandbox/manager.py:93-131 | runs exactly in a registered sandbox that is ready, reports success without output and leaves every state as it was; not found and not ready are told apart |
| Sandboxes.SandboxManager.Destroy | runtime/src/ruflo_runtime/sandbox/manager.py:133-140 | a registered sandbox is terminated, nothing else changes |
| Sandboxes.SandboxManager.Pause | runtime/src/ruflo_runtime/sandbox/manager.py:142-147 | pauses exactly a running sandbox |
| Sandboxes.SandboxManager.Resume | runtime/src/ruflo_runtime/sandbox/manager.py:149-154 | readies exactly a paused sandbox |
| Sandboxes.SandboxManager.ListActive | runtime/src/ruflo_runtime/sandbox/manager.py:159-163 | the sandboxes whose state is neither terminated nor error, each once and in order |
| Sandboxes.ActiveIsExact | runtime/src/ruflo_runtime/sandbox/manager.py:159-163 | the places of the listed sandboxes are increasing and exactly those of the sandboxes neither terminated nor broken |
| Sandboxes.CallEffects | runtime/src/ruflo_runtime/sandbox/manager.py:81-154 | each call on the state of the sandbox it names: a creation readies it, a destruction terminates it if it exists, a pause pauses it if it runs, a resumption readies it if it is paused; no other sandbox is affected |
| Sandboxes.LifeCycle | runtime/src/ruflo_runtime/sandbox/manager.py:57-154 | after any calls a sandbox is ready if its last creation was not followed by a destruction and terminated if it was; no other state is ever seen, so pausing and resuming come to nothing |
| Sandboxes.TerminatedForever | runtime/src/ruflo_runtime/sandbox/manager.py:133-154 | only a new creation under the same id brings a terminated sandbox back |
| Sandboxes.Outsiders.Ask | runtime/src/ruflo_runtime/sandbox/policy.py:115-146 | whatever was done to policies and lists handed out, a template asked for shows what it was defined to show |
| Sandboxes.AnyDeeds | runtime/src/ruflo_runtime/sandbox/policy.py:115-146 | after any sequence of creations with any overrides, among them lists of policies handed out before, requests and arbitrary in-place changes of everything made or handed out, every template still shows what it was defined to show |
| Policy.MatchesCore | control-plane/src/ruflo_control_plane/policy/rules.py:20-22 | matching with the final anchor is matching of the action without one final newline |
| Policy.MatchIsGroup | control-plane/src/ruflo_control_plane/policy/rules.py:28-92 | a default rule matches exactly the actions that, without one final newline, are one of its literals or continue its prefix on the same line |
| Policy.AnswerOfMatch | control-plane/src/ruflo_control_plane/policy/evaluator.py:50-64 | the answer is that of a matching rule, or the default denial when none matches |
| Policy.FirstMatchDecides | control-plane/src/ruflo_control_plane/policy/evaluator.py:50-57 | the first matching rule decides |
| Policy.FirstApplicableDecides | control-plane/src/ruflo_control_plane/policy/evaluator.py:50-57 | with rules of one's own: the first rule that is for the agent and has an alternative equal to the action, or a prefix that it continues on the same line, gives its verdict, reason and name, or raises when its verdict is none of the three |
| Policy.NoneAppliesDenied | control-plane/src/ruflo_control_plane/policy/evaluator.py:59-64 | when no rule applies in that sense the action is denied with the default reason and no rule name |
| Policy.OrderIndependentIff | control-plane/src/ruflo_control_plane/policy/evaluator.py:50-64 | every permutation of the rules gives the same result for a call if and only if the rules that match it agree |
| Policy.UnmatchedDenied | control-plane/src/ruflo_control_plane/policy/evaluator.py:59-64 | an action no rule matches is denied under every order |
| Policy.DefaultRulesExclusive | control-plane/src/ruflo_control_plane/policy/rules.py:28-92 | no string of any characters matches two default rules |
| Policy.DefaultOrderIrrelevant | control-plane/src/ruflo_control_plane/policy/rules.py:28-92 | the default rules give the same result in any order |
| Policy.NoRulesMeansDefaults | control-plane/src/ruflo_control_plane/policy/evaluator.py:35-36 | an evaluator given no rules or an empty list of them answers every action as the default rules do |
| Policy.DefaultTable | control-plane/src/ruflo_control_plane/policy/rules.py:28-92 | for every string the default rules answer with the verdict, reason and name of the group it belongs to, or the default denial outside all groups; the lemmas below write the groups out |
| Policy.ReadsDecided | control-plane/src/ruflo_control_plane/policy/rules.py:30-35 | read_file, list_directory, screenshot, query_atspi and every continuation of get_ on the line are allowed by allow-reads, each with or without one final newline and with its reason |
| Policy.FileOpsDecided | control-plane/src/ruflo_control_plane/policy/rules.py:37-42 | delete_file, overwrite_file, move_file, chmod and chown need approval by destructive-file-ops, each with or without one final newline and with its reason |
| Policy.InstallsDecided | control-plane/src/ruflo_control_plane/policy/rules.py:44-49 | apt_install, pip_install, npm_install and snap_install need approval by package-install, each with or without one final newline and with its reason |
| Policy.ShellsDecided | control-plane/src/ruflo_control_plane/policy/rules.py:51-56 | run_shell, sudo_exec and every continuation of systemctl_ on the line need approval by shell-exec, each with or without one final newline and with its reason |
| Policy.NetworkDecided | control-plane/src/ruflo_control_plane/policy/rules.py:58-63 | http_request, download_file and upload_file need approval by network-unknown, each with or without one final newline and with its reason |
| Policy.CredentialsDecided | control-plane/src/ruflo_control_plane/policy/rules.py:65-70 | enter_password, submit_credentials and access_keychain need approval by credential-ops, each with or without one final newline and with its reason |
| Policy.PurchasesDecided | control-plane/src/ruflo_control_plane/policy/rules.py:72-77 | browser_purchase and submit_payment are denied by browser-purchase, each with or without one final newline and with its reason |
| Policy.GuiDecided | control-plane/src/ruflo_control_plane/policy/rules.py:79-84 | click, type_text, scroll, key_press and mouse_move are allowed by gui-actions, each with or without one final newline and with its reason |
| Policy.WritesDecided | control-plane/src/ruflo_control_plane/policy/rules.py:86-91 | write_file is allowed by write-file, each with or without one final newline and with its reason |
| Policy.OthersDenied | control-plane/src/ruflo_control_plane/policy/evaluator.py:59-64 | every string that is none of these, one final newline aside, is denied with the default reason and no rule name |
| Budget.BudgetManager.CreateBudget | control-plane/src/ruflo_control_plane/orchestrator/budget.py:39-42 | a fresh budget replaces the earlier one of the task, other tasks keep theirs |
| Budget.BudgetManager.Consume | control-plane/src/ruflo_control_plane/orchestrator/budget.py:44-57 | accepted exactly when the task has a budget that is not exhausted; then that budget alone is charged, otherwise nothing changes |
| Budget.Conservation | control-plane/src/ruflo_control_plane/orchestrator/budget.py:49-57 | a run of calls is a block of accepted ones followed by refused ones, and the use grows by exactly what the accepted ones asked for |
| Budget.AcceptedUntilExhausted | control-plane/src/ruflo_control_plane/orchestrator/budget.py:28-30 | the block ends at the first call that finds a limit reached |
| Budget.FrozenWhenExhausted | control-plane/src/ruflo_control_plane/orchestrator/budget.py:49-51 | an exhausted budget never changes again |
| Budget.FreshOvershoot | control-plane/src/ruflo_control_plane/orchestrator/budget.py:20-30 | with a token limit of at least one and calls of at most M tokens, at most limit - 1 + M tokens are ever used, and the cost stays below its limit plus the largest cost |
| Budget.OvershootIsTight | control-plane/src/ruflo_control_plane/orchestrator/budget.py:44-57 | for every limit and every largest call of at least one token some run uses exactly limit - 1 + M tokens |
| Budget.AccountsAreSeparate | control-plane/src/ruflo_control_plane/orchestrator/budget.py:39-57 | however calls of many tasks interleave, each account is what the own calls of the task since its last budget make of a fresh one |
| Budget.LedgerConservation | control-plane/src/ruflo_control_plane/orchestrator/budget.py:44-57 | on all budgets, what a task has used is what its accepted calls since its last budget asked for |
| StableSort.SortCorrect | api/routes/history.py:71 | a list is the sorted one exactly when it is in descending order and keeps the elements of each key in their order |
| StableSort.SortRanks | agents/src/ruflo_agents/hermes_adapter/adapter.py:81 | the sorted list as places in the given one: all of them, each once, higher keys first and of equal keys the earlier ones first |
| StableSort.FrontIsBest | agents/src/ruflo_agents/hermes_adapter/adapter.py:81-82 | a cut of such a ranking holds the best: every omitted place that was wanted is outranked by every kept one |
| History.HistoryStore.GetHistory | api/routes/history.py:58-84 | the items of the requested page of the runs with the given status, or of all: the latest first, a missing time as zero, ties in store order; with their number and the least number of pages; page numbers and limits outside their ranges are turned away |
| History.ListingIsListing | api/routes/history.py:66-71 | the listing, said by places in the store: exactly those of the runs with the status asked for, in descending time and stable |
| History.HistoryStore.DeleteTaskHistory | api/routes/history.py:100-113 | exactly the runs of the task leave, the others keep their order; reported found exactly when there was one |
| History.DeletionIsExact | api/routes/history.py:106 | the places kept are exactly those of runs of other tasks or of none |
| History.PageCountIsLeast | api/routes/history.py:83 | the page count is the least number of pages that covers the listing |
| History.PagesPartition | api/routes/history.py:73-83 | the pages one after the other are the whole listing; all before the last are full, all after it empty |
| History.AllPagesAreTheListing | api/routes/history.py:66-84 | read page by page the history is the stable descending rearrangement of the filtered store |
| Memory.HermesMemoryAdapter.StoreEpisodic | agents/src/ruflo_agents/hermes_adapter/adapter.py:40-46 | appends one new entry, with the task id under the metadata of the caller, to the episodic layer alone and returns its id |
| Memory.HermesMemoryAdapter.StoreSemantic | agents/src/ruflo_agents/hermes_adapter/adapter.py:48-53 | appends one new entry with its source to the semantic layer alone and returns its id |
| Memory.HermesMemoryAdapter.StoreProcedural | agents/src/ruflo_agents/hermes_adapter/adapter.py:55-61 | appends one new entry with its steps and success rate to the procedural layer alone and returns its id |
| Memory.HermesMemoryAdapter.IdsDiffer | agents/src/ruflo_agents/hermes_adapter/adapter.py:42-59 | all ids ever issued are different, across the layers as well |
| Memory.HermesMemoryAdapter.Recall | agents/src/ruflo_agents/hermes_adapter/adapter.py:63-82 | entries of the selected layers in which query words occur are rated with the number of those that do, the others keep their rating; what comes back is the cut of the ranking by that number, ties in pool order, also for a negative limit |
| Memory.HitsCount | agents/src/ruflo_agents/hermes_adapter/adapter.py:76 | the score is the number of positions in the query whose word occurs in the text |
| Memory.TopK | agents/src/ruflo_agents/hermes_adapter/adapter.py:75-82 | for a limit that is not negative: as many entries with a query word as the limit allows, none outscored by an omitted one, and of equal scores the first in pool order, the score being that number |

## Left out

- HTTP and WebSocket routes, provider adapters, model download and the storage back ends: they pass requests on to services outside the repository or to the parts modelled here, and no property here depends on what those services answer.
- The user interface, the compositor and screen capture: they show and collect things and decide nothing that is modelled.
- The secret, file and network brokers, the spaces manager, the model router and the task store: each keeps state of its own that none of the modelled parts reads, so no property here depends on them.
- The set-up and tear-down of the kernel modules: they run before the first and after the last injection, and the properties of the limiter are about what lies between. The AI bridge module shares no state with the limiter.
- Logging, and the generation of times and ids: logging has no effect on what is modelled; times and ids are parameters, and ids are taken to be unique.
- Workflow.WorkflowEngine.CreateWorkflow: does not model the actions of the nodes, because nothing scheduled depends on them.
- Workflow.WorkflowDAG.AddNode: does not model adding a second node under an id that is in use, because generated ids differ. The edge list of `add_edge` is read by nothing and is left out.
- RateLimiter.InputDevice.Write: does not model the emission of the event beyond the list of injected times; the size of an event is that of a 64-bit kernel; the lock makes each write one step.
- RateLimiter.GreedyOptimal: on a monotone clock, which the kernel's clock is.
- AuditChain.CompareIsSound: does not claim that collisions are hard to find, because the hash is arbitrary.
- Approval.ApprovalBroker.Submit: does not model the creation time of a request, because nothing depends on it, nor requesters that are cancelled while they wait. `get_pending` changes nothing and is left out.
- TreeWalk.ATSPIClient.WalkTree: does not model calls to the accessibility bus that raise in the middle of a walk, and takes the tree to stay as it is during a search; lower-casing is a parameter.
- Tiling.TilingManager.TileWindows: other layouts move nothing in the code either, so windows keep the geometry they had.
- SandboxPolicies.SandboxPolicy.Apply: does not model overrides of attributes that every Python object has, such as `__class__`, because they name no policy field.
- SandboxPolicies.PolicyTemplate.Get: copies the fields in a loop over the attribute list, where the code names them one by one.
- Sandboxes.SandboxManager.Execute: does not model the environment that is passed in, because the code ignores it; callers that assign `state` themselves are left out.
- Policy.MatchesCore: does not model regular expressions beyond anchored alternatives of literals and literal prefixes, because the rules use no others.
- Budget.BudgetManager.Consume: does not model floating-point rounding of costs, which are real numbers here; for tokens it is exact.
- Budget.Conservation: like Consume, exact for tokens and up to rounding for costs.
- History.HistoryStore.GetHistory: does not model loading and saving the store, nor stored creation times that are not numbers.
- Memory.HermesMemoryAdapter.Recall: does not model creation times of entries, because scores do not depend on them; lower-casing and splitting into words are parameters.
