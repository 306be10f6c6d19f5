/** The control plane's orchestration engine: plans of mutable steps, changed in place one call at a
    time.  Every method is proved against a function on the values of the steps, and those
    functions are proved to be moves of the transition system of Schedule. */
module ControlPlane {
  import opened Schedule
  import opened Sublists

  datatype StepView = StepView(id: Id, deps: seq<Id>, status: Status, result: Payload, retries: int, maxRetries: int)

  function AfterFailure(v: StepView): StepView {
    v.(status := if v.retries + 1 < v.maxRetries then Pending else Failed, retries := v.retries + 1)
  }

  class TaskStep {
    const stepId: Id
    const description: string
    const agentType: string
    const maxRetries: int
    var dependsOn: seq<Id>
    var status: Status
    var result: Payload
    var retries: int

    constructor (id: Id, description: string, agentType: string, maxRetries: int := 3)
      ensures View() == StepView(id, [], Pending, map[], 0, maxRetries)
      ensures this.description == description && this.agentType == agentType
    {
      stepId, this.description, this.agentType, this.maxRetries := id, description, agentType, maxRetries;
      dependsOn, status, result, retries := [], Pending, map[], 0;
    }

    /** Counts a failed attempt and tells whether another is allowed. */
    method RecordFailure() returns (retry: bool)
      modifies this
      ensures View() == AfterFailure(old(View())) && retry == (View().status == Pending)
      ensures retries == old(retries) + 1 && retry == (old(retries) + 1 < maxRetries)
      ensures status == if retry then Pending else Failed
    {
      retries := retries + 1;
      if retries < maxRetries {
        status := Pending;
        return true;
      }
      status := Failed;
      return false;
    }

    function View(): StepView
      reads this
    {
      StepView(stepId, dependsOn, status, result, retries, maxRetries)
    }
  }

  function Views(steps: seq<TaskStep>): (vs: seq<StepView>)
    reads steps
    ensures |vs| == |steps| && forall i | 0 <= i < |vs| :: vs[i] == steps[i].View()
  {
    seq(|steps|, i requires 0 <= i < |steps| reads steps => steps[i].View())
  }

  predicate Distinct(steps: seq<TaskStep>) {
    forall i, j | 0 <= i < j < |steps| :: steps[i] != steps[j]
  }

  class TaskPlan {
    const planId: string
    const taskId: string
    const steps: seq<TaskStep>

    constructor (planId: string, taskId: string, steps: seq<TaskStep>)
      ensures this.planId == planId && this.taskId == taskId && this.steps == steps
    {
      this.planId, this.taskId, this.steps := planId, taskId, steps;
    }
  }

  // ---------- What the calls compute, on values ----------

  /** The position of the first step with the given id, or the length when there is none. */
  function FirstIndex(vs: seq<StepView>, id: Id): (i: nat)
    ensures i <= |vs|
    ensures forall j | 0 <= j < i :: vs[j].id != id
    ensures i < |vs| ==> vs[i].id == id
  {
    if vs == [] || vs[0].id == id then 0 else 1 + FirstIndex(vs[1..], id)
  }

  function Completing(vs: seq<StepView>, id: Id, result: Payload): seq<StepView> {
    var i := FirstIndex(vs, id);
    if i == |vs| then vs else vs[i := vs[i].(status := Completed, result := result)]
  }

  function Failing(vs: seq<StepView>, id: Id): seq<StepView> {
    var i := FirstIndex(vs, id);
    if i == |vs| then vs else vs[i := AfterFailure(vs[i])]
  }

  /** Whether the step that a failure report hits may be tried again. */
  predicate RetryLeft(vs: seq<StepView>, id: Id) {
    var i := FirstIndex(vs, id);
    i < |vs| && vs[i].retries + 1 < vs[i].maxRetries
  }

  predicate DepsCompleted(vs: seq<StepView>, v: StepView) {
    forall d <- v.deps :: exists j :: 0 <= j < |vs| && vs[j].id == d && vs[j].status == Completed
  }

  /** What a step is about: its description and the agent it is for. */
  datatype Label = Label(description: string, agentType: string)

  function Labels(steps: seq<TaskStep>): (ls: seq<Label>)
    ensures |ls| == |steps|
  {
    seq(|steps|, i requires 0 <= i < |steps| => Label(steps[i].description, steps[i].agentType))
  }

  function TemplateLabels(goal: string): seq<Label> {
    [Label("Analyze goal: " + (if |goal| > 100 then goal[..100] else goal), "planner"),
     Label("Identify required tools and permissions", "planner"),
     Label("Execute primary action", "executor"),
     Label("Verify result", "verifier")]
  }

  function Fresh(id: Id): StepView {
    StepView(id, [], Pending, map[], 0, 3)
  }

  function FreshViews(ids: seq<Id>): (vs: seq<StepView>)
    ensures |vs| == |ids| && forall i | 0 <= i < |vs| :: vs[i] == Fresh(ids[i])
  {
    seq(|ids|, i requires 0 <= i < |ids| => Fresh(ids[i]))
  }

  /** The first `n` steps linked into a chain, the others as they were. */
  function Linked(vs: seq<StepView>, n: int): (r: seq<StepView>)
    ensures |r| == |vs|
    ensures forall i | 0 <= i < |r| :: r[i] == if 0 < i < n then vs[i].(deps := [vs[i - 1].id]) else vs[i]
  {
    seq(|vs|, i requires 0 <= i < |vs| => if 0 < i < n then vs[i].(deps := [vs[i - 1].id]) else vs[i])
  }

  class OrchestratorEngine {
    var plans: map<string, TaskPlan>

    constructor ()
      ensures plans == map[]
    {
      plans := map[];
    }

    static method LinkStep(steps: seq<TaskStep>, i: int)
      requires Distinct(steps) && 0 < i < |steps|
      modifies steps[i]
      ensures Views(steps) == old(Views(steps))[i := old(Views(steps))[i].(deps := [old(Views(steps))[i - 1].id])]
    {
      steps[i].dependsOn := [steps[i - 1].stepId];
    }

    /** Makes every step but the first depend on the one before it, for lists of any length. */
    static method LinkChain(steps: seq<TaskStep>)
      requires Distinct(steps)
      modifies steps
      ensures Views(steps) == Linked(old(Views(steps)), |steps|)
    {
      var i := 1;
      while i < |steps|
        invariant 1 <= i
        invariant Views(steps) == Linked(old(Views(steps)), i)
      {
        LinkStep(steps, i);
        i := i + 1;
      }
    }

    static method NewStep(id: Id, about: Label) returns (step: TaskStep)
      ensures fresh(step) && step.View() == Fresh(id) && Label(step.description, step.agentType) == about
    {
      step := new TaskStep(id, about.description, about.agentType);
    }

    static method TemplateSteps(goal: string, ids: seq<Id>) returns (steps: seq<TaskStep>)
      requires |ids| == 4
      ensures Distinct(steps) && forall i | 0 <= i < |steps| :: fresh(steps[i])
      ensures Views(steps) == FreshViews(ids) && Labels(steps) == TemplateLabels(goal)
    {
      var labels := TemplateLabels(goal);
      var s0 := NewStep(ids[0], labels[0]);
      var s1 := NewStep(ids[1], labels[1]);
      var s2 := NewStep(ids[2], labels[2]);
      var s3 := NewStep(ids[3], labels[3]);
      steps := [s0, s1, s2, s3];
    }

    static method ChainedSteps(goal: string, ids: seq<Id>) returns (steps: seq<TaskStep>)
      requires |ids| == 4
      ensures Distinct(steps) && forall i | 0 <= i < |steps| :: fresh(steps[i])
      ensures Views(steps) == Linked(FreshViews(ids), 4) && Labels(steps) == TemplateLabels(goal)
    {
      steps := TemplateSteps(goal, ids);
      LinkChain(steps);
    }

    /** Builds and registers the template plan; the fresh ids come from the caller. */
    method Decompose(taskId: string, goal: string, planId: string, ids: seq<Id>) returns (plan: TaskPlan)
      requires |ids| == 4
      modifies this
      ensures fresh(plan) && plan.planId == planId && plan.taskId == taskId
      ensures plans == old(plans)[planId := plan]
      ensures Distinct(plan.steps) && forall i | 0 <= i < |plan.steps| :: fresh(plan.steps[i])
      ensures Views(plan.steps) == Linked(FreshViews(ids), 4)
      ensures Views(plan.steps) == [StepView(ids[0], [], Pending, map[], 0, 3),
                                    StepView(ids[1], [ids[0]], Pending, map[], 0, 3),
                                    StepView(ids[2], [ids[1]], Pending, map[], 0, 3),
                                    StepView(ids[3], [ids[2]], Pending, map[], 0, 3)]
      ensures Labels(plan.steps) == [
                Label("Analyze goal: " + (if |goal| > 100 then goal[..100] else goal), "planner"),
                Label("Identify required tools and permissions", "planner"),
                Label("Execute primary action", "executor"),
                Label("Verify result", "verifier")]
    {
      var steps := ChainedSteps(goal, ids);
      plan := new TaskPlan(planId, taskId, steps);
      plans := plans[planId := plan];
    }

    /** The pending steps whose dependencies are all completed, in plan order. */
    method GetReadySteps(planId: string) returns (ready: seq<TaskStep>)
      ensures planId !in plans ==> ready == []
      ensures planId in plans ==> ready == ReadyAmong(plans[planId].steps, Views(plans[planId].steps))
      ensures planId in plans ==>
                exists at: seq<nat> {:trigger Keeps(plans[planId].steps, ready, at)} ::
                  && Keeps(plans[planId].steps, ready, at)
                  && forall i | 0 <= i < |plans[planId].steps| :: i in at <==> ReadyNow(plans[planId].steps, i)
    {
      if planId !in plans {
        return [];
      }
      var steps := plans[planId].steps;
      var completed := set s | s in steps && s.status == Completed :: s.stepId;
      ghost var vs := Views(steps);
      assert forall d :: d in completed <==> exists j :: 0 <= j < |vs| && vs[j].id == d && vs[j].status == Completed by {
        forall d | d in completed ensures exists j :: 0 <= j < |vs| && vs[j].id == d && vs[j].status == Completed {
          var s :| s in steps && s.status == Completed && s.stepId == d;
          var j :| 0 <= j < |steps| && steps[j] == s;
          assert vs[j].id == d;
        }
        forall j | 0 <= j < |vs| && vs[j].status == Completed ensures vs[j].id in completed {
          assert steps[j] in steps;
        }
      }
      ready := [];
      for i := 0 to |steps|
        invariant ready == ReadyAmong(steps[..i], vs)
      {
        assert steps[..i + 1][..i] == steps[..i];
        if steps[i].status != Pending {
          continue;
        }
        if forall d <- steps[i].dependsOn :: d in completed {
          ready := ready + [steps[i]];
        }
      }
      assert steps[..|steps|] == steps;
      ghost var at := ReadyIsExact(steps);
    }

    method CompleteStep(planId: string, stepId: Id, result: Payload)
      requires planId in plans ==> Distinct(plans[planId].steps)
      modifies if planId in plans then plans[planId].steps else []
      ensures planId in plans ==>
                Views(plans[planId].steps) == Completing(old(Views(plans[planId].steps)), stepId, result)
    {
      if planId !in plans {
        return;
      }
      var steps := plans[planId].steps;
      for i := 0 to |steps|
        invariant forall j | 0 <= j < i :: steps[j].stepId != stepId
        invariant Views(steps) == old(Views(steps))
      {
        if steps[i].stepId == stepId {
          FirstIndexIs(Views(steps), stepId, i);
          steps[i].status := Completed;
          steps[i].result := result;
          assert Views(steps) == old(Views(steps))[i := steps[i].View()];
          return;
        }
      }
      FirstIndexIs(Views(steps), stepId, |steps|);
    }

    method FailStep(planId: string, stepId: Id) returns (retry: bool)
      requires planId in plans ==> Distinct(plans[planId].steps)
      modifies if planId in plans then plans[planId].steps else []
      ensures planId !in plans ==> !retry
      ensures planId in plans ==>
                && Views(plans[planId].steps) == Failing(old(Views(plans[planId].steps)), stepId)
                && retry == RetryLeft(old(Views(plans[planId].steps)), stepId)
    {
      if planId !in plans {
        return false;
      }
      var steps := plans[planId].steps;
      for i := 0 to |steps|
        invariant forall j | 0 <= j < i :: steps[j].stepId != stepId
        invariant Views(steps) == old(Views(steps))
      {
        if steps[i].stepId == stepId {
          FirstIndexIs(Views(steps), stepId, i);
          retry := steps[i].RecordFailure();
          assert Views(steps) == old(Views(steps))[i := steps[i].View()];
          return;
        }
      }
      FirstIndexIs(Views(steps), stepId, |steps|);
      return false;
    }
  }

  function ReadyAmong(steps: seq<TaskStep>, all: seq<StepView>): seq<TaskStep>
    reads steps
  {
    if steps == [] then []
    else
      var last := steps[|steps| - 1];
      ReadyAmong(steps[..|steps| - 1], all)
      + if last.status == Pending && DepsCompleted(all, last.View()) then [last] else []
  }

  /** The step at this place is pending, and each of its dependencies is the id of a completed step. */
  predicate ReadyNow(steps: seq<TaskStep>, i: nat)
    requires i < |steps|
    reads steps
  {
    && steps[i].status == Pending
    && forall d <- steps[i].dependsOn ::
         exists j :: 0 <= j < |steps| && steps[j].stepId == d && steps[j].status == Completed
  }

  lemma {:induction false} ReadyKeeps(steps: seq<TaskStep>, all: seq<StepView>) returns (at: seq<nat>)
    ensures Keeps(steps, ReadyAmong(steps, all), at)
    ensures forall i | 0 <= i < |steps| :: i in at <==> steps[i].status == Pending && DepsCompleted(all, steps[i].View())
  {
    at := [];
    if steps != [] {
      var n := |steps| - 1;
      var init, last := steps[..n], steps[n];
      at := ReadyKeeps(init, all);
      assert steps == init + [last];
      KeepsNext(init, ReadyAmong(init, all), at, last);
      if last.status == Pending && DepsCompleted(all, last.View()) {
        at := at + [n];
      }
    }
  }

  lemma ReadyNowIs(steps: seq<TaskStep>, i: nat)
    requires i < |steps|
    ensures ReadyNow(steps, i) <==> steps[i].status == Pending && DepsCompleted(Views(steps), steps[i].View())
  {
    var vs := Views(steps);
    forall d | d in steps[i].dependsOn
      ensures (exists j :: 0 <= j < |steps| && steps[j].stepId == d && steps[j].status == Completed)
         <==> (exists j :: 0 <= j < |vs| && vs[j].id == d && vs[j].status == Completed)
    {
      if j :| 0 <= j < |steps| && steps[j].stepId == d && steps[j].status == Completed {
        assert vs[j].id == d;
      }
      if j :| 0 <= j < |vs| && vs[j].id == d && vs[j].status == Completed {
        assert steps[j].stepId == d;
      }
    }
  }

  /** The ready list holds exactly the ready steps, each once, in plan order. */
  lemma ReadyIsExact(steps: seq<TaskStep>) returns (at: seq<nat>)
    ensures Keeps(steps, ReadyAmong(steps, Views(steps)), at)
    ensures forall i | 0 <= i < |steps| :: i in at <==> ReadyNow(steps, i)
  {
    at := ReadyKeeps(steps, Views(steps));
    forall i | 0 <= i < |steps| ensures i in at <==> ReadyNow(steps, i) {
      ReadyNowIs(steps, i);
    }
  }

  predicate IsFirst(vs: seq<StepView>, id: Id, i: nat) {
    i < |vs| && vs[i].id == id && forall j | 0 <= j < i :: vs[j].id != id
  }

  /** A completion report sets the status and stores the result of the first step of that id. */
  lemma CompletingIs(vs: seq<StepView>, id: Id, result: Payload, i: nat)
    requires IsFirst(vs, id, i)
    ensures Completing(vs, id, result)
            == vs[i := StepView(id, vs[i].deps, Completed, result, vs[i].retries, vs[i].maxRetries)]
  {
    FirstIndexIs(vs, id, i);
  }

  /** A failure report counts one more failure of the first step of that id, and the step may be tried
      again as long as the count is below its allowance. */
  lemma FailingIs(vs: seq<StepView>, id: Id, i: nat)
    requires IsFirst(vs, id, i)
    ensures var again := vs[i].retries + 1 < vs[i].maxRetries;
            && RetryLeft(vs, id) == again
            && Failing(vs, id) == vs[i := StepView(id, vs[i].deps, if again then Pending else Failed, vs[i].result,
                                                   vs[i].retries + 1, vs[i].maxRetries)]
  {
    FirstIndexIs(vs, id, i);
  }

  /** Reports on ids that no step has change nothing. */
  lemma UnknownIdChangesNothing(vs: seq<StepView>, id: Id, result: Payload)
    requires forall v <- vs :: v.id != id
    ensures Completing(vs, id, result) == vs && Failing(vs, id) == vs && !RetryLeft(vs, id)
  {
    FirstIndexIs(vs, id, |vs|);
  }

  lemma FirstIndexIs(vs: seq<StepView>, id: Id, i: nat)
    requires i <= |vs| && (forall j | 0 <= j < i :: vs[j].id != id)
    requires i < |vs| ==> vs[i].id == id
    ensures FirstIndex(vs, id) == i
  {
  }
}
