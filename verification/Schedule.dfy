/** The scheduling rules the two orchestration engines share, as a transition system over plain
    values: tasks with dependencies and a retry allowance, one status and one retry counter per task,
    and an oracle that fixes the outcome of every attempt.  The engines themselves are in
    ControlPlane.dfy and Workflow.dfy. */
module Schedule {
  import opened Positions

  type Id = string

  /** What a successful attempt yields. */
  type Payload = map<string, string>

  datatype Status = Pending | Running | Completed | Failed

  datatype Task = Task(deps: seq<Id>, maxRetries: int)

  type Graph = map<Id, Task>

  datatype NodeState = NodeState(status: Status, retries: int)

  type State = map<Id, NodeState>

  /** `o(n, k)` tells whether the attempt at task `n` that follows `k` failed ones succeeds. */
  type Oracle = (Id, int) -> bool

  /** The number of attempts a task is given: even an allowance below one buys one attempt. */
  function Bound(t: Task): int {
    if t.maxRetries < 1 then 1 else t.maxRetries
  }

  predicate IsDone(x: NodeState) {
    x.status == Completed || x.status == Failed
  }

  predicate DepsDone(g: Graph, s: State, n: Id)
    requires n in g
  {
    forall d <- g[n].deps :: d in s && s[d].status == Completed
  }

  predicate IsReady(g: Graph, s: State, n: Id) {
    n in g && n in s && s[n].status == Pending && DepsDone(g, s, n)
  }

  /** What one finished attempt makes of a task that had failed `retries` times. */
  function Outcome(t: Task, retries: int, ok: bool): NodeState {
    if ok then NodeState(Completed, retries)
    else if retries + 1 < t.maxRetries then NodeState(Pending, retries + 1)
    else NodeState(Failed, retries + 1)
  }

  /** `Begin` and `Finish` are the two halves of an attempt that other tasks may interleave with;
      `Attempt` is a whole attempt in one step. */
  datatype Event = Begin(id: Id) | Finish(id: Id) | Attempt(id: Id)

  predicate Enabled(g: Graph, s: State, e: Event) {
    match e
    case Begin(n) => IsReady(g, s, n)
    case Finish(n) => n in g && n in s && s[n].status == Running
    case Attempt(n) => IsReady(g, s, n)
  }

  function Apply(g: Graph, o: Oracle, s: State, e: Event): State
    requires Enabled(g, s, e)
  {
    match e
    case Begin(n) => s[n := NodeState(Running, s[n].retries)]
    case Finish(n) => s[n := Outcome(g[n], s[n].retries, o(n, s[n].retries))]
    case Attempt(n) => s[n := Outcome(g[n], s[n].retries, o(n, s[n].retries))]
  }

  predicate IsRun(g: Graph, o: Oracle, s: State, es: seq<Event>) {
    es == [] || (Enabled(g, s, es[0]) && IsRun(g, o, Apply(g, o, s, es[0]), es[1..]))
  }

  function After(g: Graph, o: Oracle, s: State, es: seq<Event>): State
    requires IsRun(g, o, s, es)
  {
    if es == [] then s else After(g, o, Apply(g, o, s, es[0]), es[1..])
  }

  function Init(g: Graph): State {
    map n | n in g :: NodeState(Pending, 0)
  }

  /** No event is enabled: a run that stops here is maximal. */
  predicate IsTerminal(g: Graph, s: State) {
    forall n | n in s :: !IsReady(g, s, n) && s[n].status != Running
  }

  lemma RunCons(g: Graph, o: Oracle, s: State, e: Event, es: seq<Event>)
    requires Enabled(g, s, e) && IsRun(g, o, Apply(g, o, s, e), es)
    ensures IsRun(g, o, s, [e] + es)
    ensures After(g, o, s, [e] + es) == After(g, o, Apply(g, o, s, e), es)
  {
  }

  lemma {:induction false} RunConcat(g: Graph, o: Oracle, s: State, es: seq<Event>, more: seq<Event>)
    requires IsRun(g, o, s, es)
    requires IsRun(g, o, After(g, o, s, es), more)
    ensures IsRun(g, o, s, es + more)
    ensures After(g, o, s, es + more) == After(g, o, After(g, o, s, es), more)
  {
    if es == [] {
      assert es + more == more;
    } else {
      RunConcat(g, o, Apply(g, o, s, es[0]), es[1..], more);
      assert (es + more)[1..] == es[1..] + more;
    }
  }

  lemma RunSnoc(g: Graph, o: Oracle, s: State, es: seq<Event>, e: Event)
    requires IsRun(g, o, s, es) && Enabled(g, After(g, o, s, es), e)
    ensures IsRun(g, o, s, es + [e])
    ensures After(g, o, s, es + [e]) == Apply(g, o, After(g, o, s, es), e)
  {
    var s' := After(g, o, s, es);
    var one := [e];
    assert one[1..] == [] && IsRun(g, o, Apply(g, o, s', e), one[1..]);
    assert After(g, o, s', one) == After(g, o, Apply(g, o, s', e), one[1..]);
    RunConcat(g, o, s, es, [e]);
  }

  // ---------- What every reachable state satisfies ----------

  /** The retry counter counts exactly the failed attempts, the status agrees with the oracle, and a
      task that was ever started has all its dependencies completed. */
  ghost predicate NodeOk(g: Graph, o: Oracle, s: State, n: Id)
    requires n in g && n in s
  {
    var x := s[n];
    && 0 <= x.retries
    && (forall k :: 0 <= k < x.retries ==> !o(n, k))
    && (x.status == Failed ==> x.retries == Bound(g[n]))
    && (x.status != Failed ==> x.retries < Bound(g[n]))
    && (x.status == Completed ==> o(n, x.retries))
    && (x.status != Pending || 0 < x.retries ==> DepsDone(g, s, n))
  }

  ghost predicate Inv(g: Graph, o: Oracle, s: State) {
    s.Keys == g.Keys && forall n {:trigger NodeOk(g, o, s, n)} | n in g :: NodeOk(g, o, s, n)
  }

  lemma InitInv(g: Graph, o: Oracle)
    ensures Inv(g, o, Init(g))
  {
  }

  /** Finished tasks are never touched again. */
  ghost predicate Extends(s: State, s': State) {
    s.Keys == s'.Keys && forall n | n in s && IsDone(s[n]) :: s'[n] == s[n]
  }

  lemma ApplyInv(g: Graph, o: Oracle, s: State, e: Event)
    requires Inv(g, o, s) && Enabled(g, s, e)
    ensures Inv(g, o, Apply(g, o, s, e))
    ensures Extends(s, Apply(g, o, s, e))
  {
    var s' := Apply(g, o, s, e);
    assert NodeOk(g, o, s, e.id);
    forall n | n in g ensures NodeOk(g, o, s', n) {
      assert NodeOk(g, o, s, n);
      if DepsDone(g, s, n) {
        assert DepsDone(g, s', n);
      }
    }
  }

  /** Dependency safety, over all runs: in every reachable state a running, completed or failed task
      has all its dependencies completed, and what was finished stays as it was. */
  lemma {:induction false} RunInv(g: Graph, o: Oracle, s: State, es: seq<Event>)
    requires Inv(g, o, s) && IsRun(g, o, s, es)
    ensures Inv(g, o, After(g, o, s, es))
    ensures Extends(s, After(g, o, s, es))
  {
    if es != [] {
      ApplyInv(g, o, s, es[0]);
      RunInv(g, o, Apply(g, o, s, es[0]), es[1..]);
    }
  }

  // ---------- Schedule independence ----------

  /** How a finished task ended is settled by the oracle alone. */
  lemma FinishedAgree(g: Graph, o: Oracle, s: State, t: State, n: Id)
    requires n in g && n in s && n in t
    requires NodeOk(g, o, s, n) && NodeOk(g, o, t, n)
    requires IsDone(s[n]) && IsDone(t[n])
    ensures s[n] == t[n]
  {
  }

  /** One step cannot finish a task in a way that disagrees with a terminal state. */
  lemma StepAgrees(g: Graph, o: Oracle, s: State, e: Event, t: State)
    requires Inv(g, o, s) && Enabled(g, s, e)
    requires Inv(g, o, t) && IsTerminal(g, t)
    requires Extends(s, t)
    ensures Extends(Apply(g, o, s, e), t)
  {
    var s', n := Apply(g, o, s, e), e.id;
    ApplyInv(g, o, s, e);
    if IsDone(s'[n]) {
      assert IsDone(t[n]) by {
        assert NodeOk(g, o, s, n);
        assert DepsDone(g, t, n);
        assert !IsReady(g, t, n);
      }
      FinishedAgree(g, o, s', t, n);
    }
  }

  lemma {:induction false} RunAgrees(g: Graph, o: Oracle, s: State, es: seq<Event>, t: State)
    requires Inv(g, o, s) && IsRun(g, o, s, es)
    requires Inv(g, o, t) && IsTerminal(g, t)
    requires Extends(s, t)
    ensures Extends(After(g, o, s, es), t)
  {
    if es != [] {
      StepAgrees(g, o, s, es[0], t);
      ApplyInv(g, o, s, es[0]);
      RunAgrees(g, o, Apply(g, o, s, es[0]), es[1..], t);
    }
  }

  lemma TerminalAgree(g: Graph, o: Oracle, t: State, t': State, n: Id)
    requires Inv(g, o, t) && IsTerminal(g, t) && Inv(g, o, t') && IsTerminal(g, t')
    requires Extends(t, t') && Extends(t', t) && n in g
    ensures t[n] == t'[n]
  {
    assert NodeOk(g, o, t, n) && NodeOk(g, o, t', n);
    assert !IsReady(g, t, n) && !IsReady(g, t', n);
  }

  /** Any two maximal runs of the same tasks under the same oracle end in the same state, statuses
      and retry counters alike, however their steps are ordered or interleaved.  The graph may have
      cycles and may name dependencies that do not exist. */
  lemma Confluence(g: Graph, o: Oracle, es: seq<Event>, es': seq<Event>)
    requires IsRun(g, o, Init(g), es) && IsTerminal(g, After(g, o, Init(g), es))
    requires IsRun(g, o, Init(g), es') && IsTerminal(g, After(g, o, Init(g), es'))
    ensures After(g, o, Init(g), es) == After(g, o, Init(g), es')
  {
    var t, t' := After(g, o, Init(g), es), After(g, o, Init(g), es');
    InitInv(g, o);
    RunInv(g, o, Init(g), es);
    RunInv(g, o, Init(g), es');
    RunAgrees(g, o, Init(g), es, t');
    RunAgrees(g, o, Init(g), es', t);
    forall n | n in g ensures t[n] == t'[n] {
      TerminalAgree(g, o, t, t', n);
    }
  }

  // ---------- The verdict, without any schedule ----------

  ghost predicate SomeAttemptSucceeds(g: Graph, o: Oracle, n: Id)
    requires n in g
  {
    exists k :: 0 <= k < Bound(g[n]) && o(n, k)
  }

  /** The status equation: completed when the dependencies are and an allowed attempt succeeds,
      failed when the dependencies are completed and none does, pending otherwise. */
  ghost predicate IsVerdict(g: Graph, o: Oracle, v: map<Id, Status>) {
    && v.Keys == g.Keys
    && forall n | n in g ::
         v[n] == if exists d <- g[n].deps :: d !in v || v[d] != Completed then Pending
                 else if SomeAttemptSucceeds(g, o, n) then Completed
                 else Failed
  }

  function Statuses(s: State): map<Id, Status> {
    map n | n in s :: s[n].status
  }

  /** Every maximal run ends in statuses that satisfy the equation. */
  lemma TerminalIsVerdict(g: Graph, o: Oracle, es: seq<Event>)
    requires IsRun(g, o, Init(g), es) && IsTerminal(g, After(g, o, Init(g), es))
    ensures IsVerdict(g, o, Statuses(After(g, o, Init(g), es)))
  {
    var t := After(g, o, Init(g), es);
    var v := Statuses(t);
    InitInv(g, o);
    RunInv(g, o, Init(g), es);
    forall n | n in g
      ensures v[n] == if exists d <- g[n].deps :: d !in v || v[d] != Completed then Pending
                      else if SomeAttemptSucceeds(g, o, n) then Completed
                      else Failed
    {
      assert NodeOk(g, o, t, n);
      assert !IsReady(g, t, n);
      assert DepsDone(g, t, n) <==> !exists d <- g[n].deps :: d !in v || v[d] != Completed;
    }
  }

  /** Dependencies lead strictly downwards in some numbering of the tasks. */
  ghost predicate Descends(g: Graph, rank: map<Id, nat>) {
    && g.Keys <= rank.Keys
    && forall n, d | n in g && d in g[n].deps && d in g :: rank[d] < rank[n]
  }

  ghost predicate Acyclic(g: Graph) {
    exists rank: map<Id, nat> :: Descends(g, rank)
  }

  lemma {:induction false} VerdictAt(g: Graph, o: Oracle, v: map<Id, Status>, w: map<Id, Status>, rank: map<Id, nat>, n: Id)
    requires IsVerdict(g, o, v) && IsVerdict(g, o, w)
    requires Descends(g, rank) && n in g
    ensures v[n] == w[n]
    decreases rank[n]
  {
    forall d | d in g[n].deps && d in g ensures v[d] == w[d] {
      VerdictAt(g, o, v, w, rank, d);
    }
  }

  /** On an acyclic graph the equation has one solution, so it alone says how every run ends. */
  lemma VerdictUnique(g: Graph, o: Oracle, v: map<Id, Status>, w: map<Id, Status>)
    requires Acyclic(g)
    requires IsVerdict(g, o, v) && IsVerdict(g, o, w)
    ensures v == w
  {
    var rank :| Descends(g, rank);
    forall n | n in g ensures v[n] == w[n] {
      VerdictAt(g, o, v, w, rank, n);
    }
  }

  // ---------- Progress ----------

  /** A walk along `deps`, from a task to one of its transitive dependencies. */
  ghost predicate IsDepPath(g: Graph, p: seq<Id>) {
    && 2 <= |p|
    && forall i | 0 <= i < |p| - 1 :: p[i] in g && p[i + 1] in g[p[i]].deps
  }

  /** A dependency that will never be completed by any further step. */
  predicate IsDead(g: Graph, s: State, d: Id) {
    d !in g || (d in s && s[d].status == Failed)
  }

  ghost predicate HasDeadAncestor(g: Graph, s: State, n: Id) {
    exists p :: IsDepPath(g, p) && p[0] == n && IsDead(g, s, p[|p| - 1])
  }

  lemma {:induction false} PathCompleted(g: Graph, o: Oracle, s: State, p: seq<Id>, i: nat)
    requires Inv(g, o, s) && IsDepPath(g, p) && DepsDone(g, s, p[0])
    requires 1 <= i < |p|
    ensures p[i] in g && s[p[i]].status == Completed
  {
    if i > 1 {
      PathCompleted(g, o, s, p, i - 1);
      assert NodeOk(g, o, s, p[i - 1]);
    }
  }

  lemma {:induction false} FindDead(g: Graph, o: Oracle, s: State, rank: map<Id, nat>, n: Id) returns (p: seq<Id>)
    requires Inv(g, o, s) && IsTerminal(g, s) && Descends(g, rank)
    requires n in g && s[n].status == Pending
    ensures IsDepPath(g, p) && p[0] == n && IsDead(g, s, p[|p| - 1])
    decreases rank[n]
  {
    assert !IsReady(g, s, n);
    var d :| d in g[n].deps && !(d in s && s[d].status == Completed);
    if IsDead(g, s, d) {
      p := [n, d];
    } else {
      var q := FindDead(g, o, s, rank, d);
      p := [n] + q;
    }
  }

  /** With nothing running, no task is ready exactly when every pending task has a transitive
      dependency that failed or does not exist. */
  lemma Progress(g: Graph, o: Oracle, s: State)
    requires Acyclic(g) && Inv(g, o, s)
    requires forall n | n in s :: s[n].status != Running
    ensures (forall n | n in s :: !IsReady(g, s, n))
       <==> (forall n | n in s && s[n].status == Pending :: HasDeadAncestor(g, s, n))
  {
    if IsTerminal(g, s) {
      var rank :| Descends(g, rank);
      forall n | n in s && s[n].status == Pending ensures HasDeadAncestor(g, s, n) {
        var p := FindDead(g, o, s, rank, n);
      }
    } else {
      var n :| n in s && IsReady(g, s, n);
      if HasDeadAncestor(g, s, n) {
        var p :| IsDepPath(g, p) && p[0] == n && IsDead(g, s, p[|p| - 1]);
        PathCompleted(g, o, s, p, |p| - 1);
      }
    }
  }

  /** Every named dependency is a task of the graph. */
  predicate Closed(g: Graph) {
    forall n, d | n in g && d in g[n].deps :: d in g
  }

  predicate AllCompleted(s: State) {
    forall n | n in s :: s[n].status == Completed
  }

  lemma PathStaysInside(g: Graph, p: seq<Id>)
    requires Closed(g) && IsDepPath(g, p)
    ensures p[|p| - 1] in g
  {
    var i := |p| - 2;
    assert p[i + 1] in g[p[i]].deps;
  }

  lemma UnfailedCompletes(g: Graph, o: Oracle, s: State)
    requires Acyclic(g) && Closed(g) && Inv(g, o, s) && IsTerminal(g, s)
    requires forall n | n in g :: SomeAttemptSucceeds(g, o, n)
    ensures AllCompleted(s)
  {
    forall n | n in g ensures s[n].status != Failed {
      assert NodeOk(g, o, s, n) && SomeAttemptSucceeds(g, o, n);
    }
    Progress(g, o, s);
    forall n | n in s ensures s[n].status == Completed {
      if s[n].status == Pending {
        assert HasDeadAncestor(g, s, n);
        var p :| IsDepPath(g, p) && p[0] == n && IsDead(g, s, p[|p| - 1]);
        PathStaysInside(g, p);
      }
    }
  }

  lemma BehindFailed(g: Graph, o: Oracle, s: State, n: Id) returns (m: Id, d: Id)
    requires Acyclic(g) && Closed(g) && Inv(g, o, s) && IsTerminal(g, s)
    requires n in g && s[n].status == Pending
    ensures m in g && d in g[m].deps && d in g && !SomeAttemptSucceeds(g, o, d)
  {
    var rank :| Descends(g, rank);
    var p := FindDead(g, o, s, rank, n);
    PathStaysInside(g, p);
    m, d := p[|p| - 2], p[|p| - 2 + 1];
    assert NodeOk(g, o, s, d);
  }

  predicate NothingPending(s: State) {
    forall n <- s :: s[n].status != Pending
  }

  /** Every task that some task depends on exists and has a successful attempt. */
  ghost predicate NeededSucceed(g: Graph, o: Oracle) {
    forall n, d | n in g && d in g[n].deps :: d in g && SomeAttemptSucceeds(g, o, d)
  }

  // ---------- Termination ----------

  predicate NoDup(xs: seq<Id>) {
    forall i, j | 0 <= i < j < |xs| :: xs[i] != xs[j]
  }

  /** The tasks of a graph, each once, in the order of the plan. */
  predicate Lists(order: seq<Id>, g: Graph) {
    NoDup(order) && (forall n <- order :: n in g) && (forall n <- g :: n in order)
  }

  /** The work a task can still cause: `unit` per remaining attempt, one less once begun. */
  function NodeWork(g: Graph, s: State, unit: int, n: Id): int {
    if n !in g || n !in s || IsDone(s[n]) then 0
    else unit * (Bound(g[n]) - s[n].retries) - if s[n].status == Running then 1 else 0
  }

  function Work(g: Graph, s: State, unit: int, order: seq<Id>): int {
    if order == [] then 0 else NodeWork(g, s, unit, order[0]) + Work(g, s, unit, order[1..])
  }

  function Charge(e: Event, unit: int): int {
    match e
    case Begin(_) => 1
    case Finish(_) => unit - 1
    case Attempt(_) => unit
  }

  function Charges(es: seq<Event>, unit: int): int {
    if es == [] then 0 else Charge(es[0], unit) + Charges(es[1..], unit)
  }

  lemma {:induction false} WorkChanges(g: Graph, s: State, s': State, unit: int, order: seq<Id>, n: Id)
    requires NoDup(order)
    requires s.Keys == s'.Keys && forall m | m in s && m != n :: s'[m] == s[m]
    ensures Work(g, s', unit, order) ==
            Work(g, s, unit, order) + if n in order then NodeWork(g, s', unit, n) - NodeWork(g, s, unit, n) else 0
  {
    if order != [] {
      WorkChanges(g, s, s', unit, order[1..], n);
      assert order[0] !in order[1..];
    }
  }

  lemma {:induction false} WorkNonnegative(g: Graph, o: Oracle, s: State, unit: int, order: seq<Id>)
    requires Inv(g, o, s) && 1 <= unit
    ensures 0 <= Work(g, s, unit, order)
  {
    if order != [] {
      var n := order[0];
      if n in g {
        assert NodeOk(g, o, s, n);
        UnitWork(unit, Bound(g[n]) - s[n].retries);
      }
      WorkNonnegative(g, o, s, unit, order[1..]);
    }
  }

  lemma UnitWork(unit: int, left: int)
    requires 1 <= unit
    ensures unit * left == unit * (left - 1) + unit
    ensures 1 <= left ==> unit <= unit * left
  {
  }

  lemma StepWork(g: Graph, o: Oracle, s: State, unit: int, e: Event)
    requires Inv(g, o, s) && Enabled(g, s, e) && 1 <= unit
    ensures Charge(e, unit) + NodeWork(g, Apply(g, o, s, e), unit, e.id) <= NodeWork(g, s, unit, e.id)
  {
    var n := e.id;
    assert NodeOk(g, o, s, n);
    UnitWork(unit, Bound(g[n]) - s[n].retries);
  }

  lemma {:induction false} RunWork(g: Graph, o: Oracle, s: State, es: seq<Event>, unit: int, order: seq<Id>)
    requires Lists(order, g) && Inv(g, o, s) && IsRun(g, o, s, es) && 1 <= unit
    ensures Charges(es, unit) + Work(g, After(g, o, s, es), unit, order) <= Work(g, s, unit, order)
  {
    if es != [] {
      var s' := Apply(g, o, s, es[0]);
      ApplyInv(g, o, s, es[0]);
      StepWork(g, o, s, unit, es[0]);
      WorkChanges(g, s, s', unit, order, es[0].id);
      RunWork(g, o, s', es[1..], unit, order);
    }
  }

  function TotalBound(g: Graph, order: seq<Id>): int
    requires forall n <- order :: n in g
  {
    if order == [] then 0 else Bound(g[order[0]]) + TotalBound(g, order[1..])
  }

  lemma {:induction false} InitWork(g: Graph, unit: int, order: seq<Id>)
    requires forall n <- order :: n in g
    ensures Work(g, Init(g), unit, order) == unit * TotalBound(g, order)
  {
    if order != [] {
      InitWork(g, unit, order[1..]);
      var a, b := Bound(g[order[0]]), TotalBound(g, order[1..]);
      assert unit * (a + b) == unit * a + unit * b;
    }
  }

  predicate StartsAttempt(e: Event) {
    !e.Finish?
  }

  /** How many attempts a run makes. */
  function Attempts(es: seq<Event>): nat {
    if es == [] then 0 else (if StartsAttempt(es[0]) then 1 else 0) + Attempts(es[1..])
  }

  lemma {:induction false} ChargesCount(es: seq<Event>)
    ensures Charges(es, 1) == Attempts(es)
    ensures |es| <= Charges(es, 2)
  {
    if es != [] {
      ChargesCount(es[1..]);
    }
  }

  lemma {:induction false} AttemptsCharge(es: seq<Event>)
    requires forall e <- es :: e.Attempt?
    ensures Charges(es, 1) == |es|
  {
    if es != [] {
      assert es[0] in es && forall e <- es[1..] :: e in es;
      AttemptsCharge(es[1..]);
    }
  }

  /** Termination: no run makes more attempts than the allowances of all tasks together, nor takes
      more than twice as many steps. */
  lemma RunsAreBounded(g: Graph, o: Oracle, es: seq<Event>, order: seq<Id>)
    requires Lists(order, g) && IsRun(g, o, Init(g), es)
    ensures Attempts(es) <= TotalBound(g, order)
    ensures |es| <= 2 * TotalBound(g, order)
  {
    InitInv(g, o);
    RunInv(g, o, Init(g), es);
    ChargesCount(es);
    forall unit | 1 <= unit <= 2 ensures Charges(es, unit) <= unit * TotalBound(g, order) {
      RunWork(g, o, Init(g), es, unit, order);
      WorkNonnegative(g, o, After(g, o, Init(g), es), unit, order);
      InitWork(g, unit, order);
    }
  }

  lemma WholeAttemptsBounded(g: Graph, o: Oracle, es: seq<Event>, order: seq<Id>)
    requires Lists(order, g) && IsRun(g, o, Init(g), es) && forall e <- es :: e.Attempt?
    ensures |es| <= TotalBound(g, order)
  {
    RunsAreBounded(g, o, es, order);
    AttemptsCharge(es);
    ChargesCount(es);
  }

  // ---------- The order of completions ----------

  function CompletionLog(g: Graph, o: Oracle, s: State, es: seq<Event>): seq<Id>
    requires IsRun(g, o, s, es)
  {
    if es == [] then []
    else
      var s' := Apply(g, o, s, es[0]);
      Logged(s', es[0].id) + CompletionLog(g, o, s', es[1..])
  }

  function Logged(s: State, n: Id): seq<Id> {
    if n in s && s[n].status == Completed then [n] else []
  }

  /** `log` holds the completed tasks, each once, each after all its dependencies. */
  ghost predicate IsCompletionOrder(g: Graph, s: State, log: seq<Id>) {
    && NoDup(log)
    && (forall n :: n in log <==> n in s && s[n].status == Completed)
    && (forall i | 0 <= i < |log| :: log[i] in g && forall d <- g[log[i]].deps :: d in log[..i])
  }

  lemma LogStep(g: Graph, o: Oracle, s: State, e: Event, past: seq<Id>)
    requires Inv(g, o, s) && Enabled(g, s, e) && IsCompletionOrder(g, s, past)
    ensures IsCompletionOrder(g, Apply(g, o, s, e), past + Logged(Apply(g, o, s, e), e.id))
  {
    var s', n := Apply(g, o, s, e), e.id;
    var now := past + Logged(s', n);
    assert NodeOk(g, o, s, n);
    forall i | 0 <= i < |now| ensures now[i] in g && forall d <- g[now[i]].deps :: d in now[..i] {
      if i < |past| {
        assert now[..i] == past[..i];
      } else {
        assert now[..i] == past;
      }
    }
  }

  lemma {:induction false} LogGrows(g: Graph, o: Oracle, s: State, es: seq<Event>, past: seq<Id>)
    requires Inv(g, o, s) && IsRun(g, o, s, es) && IsCompletionOrder(g, s, past)
    ensures IsCompletionOrder(g, After(g, o, s, es), past + CompletionLog(g, o, s, es))
  {
    if es == [] {
      assert past + [] == past;
    } else {
      var s' := Apply(g, o, s, es[0]);
      var now, rest := Logged(s', es[0].id), CompletionLog(g, o, s', es[1..]);
      assert IsCompletionOrder(g, After(g, o, s', es[1..]), (past + now) + rest) by {
        LogStep(g, o, s, es[0], past);
        ApplyInv(g, o, s, es[0]);
        LogGrows(g, o, s', es[1..], past + now);
      }
      assert (past + now) + rest == past + (now + rest);
    }
  }

  /** The log of completions of any run is a linear extension of the dependency order. */
  lemma CompletionsAreOrdered(g: Graph, o: Oracle, es: seq<Event>)
    requires IsRun(g, o, Init(g), es)
    ensures IsCompletionOrder(g, After(g, o, Init(g), es), CompletionLog(g, o, Init(g), es))
  {
    InitInv(g, o);
    LogGrows(g, o, Init(g), es, []);
    assert [] + CompletionLog(g, o, Init(g), es) == CompletionLog(g, o, Init(g), es);
  }

  // ---------- When a run leaves nothing behind ----------

  /** The places in the log of completions, with everything that never completed at the end. */
  function Places(g: Graph, log: seq<Id>): map<Id, nat> {
    map n | n in g :: Position(log, n)
  }

  lemma PlacesDescend(g: Graph, o: Oracle, s: State, log: seq<Id>, n: Id, d: Id)
    requires Inv(g, o, s) && IsCompletionOrder(g, s, log)
    requires n in g && d in g[n].deps && s[n].status != Pending
    ensures d in g && Position(log, d) < Position(log, n)
  {
    assert NodeOk(g, o, s, n);
    assert d in log;
    if n in log {
      var i := Position(log, n);
      assert d in log[..i];
      EarlyPosition(log, i, d);
    }
  }

  lemma OrderDescends(g: Graph, o: Oracle, s: State, log: seq<Id>)
    requires Inv(g, o, s) && IsCompletionOrder(g, s, log) && NothingPending(s)
    ensures Acyclic(g) && Closed(g)
  {
    forall n, d | n in g && d in g[n].deps ensures d in g && Position(log, d) < Position(log, n) {
      PlacesDescend(g, o, s, log, n, d);
    }
    assert Descends(g, Places(g, log));
  }

  /** A run that leaves nothing pending shows that the graph has no cycle and misses nothing. */
  lemma DoneIsAcyclic(g: Graph, o: Oracle, es: seq<Event>)
    requires IsRun(g, o, Init(g), es) && NothingPending(After(g, o, Init(g), es))
    ensures Acyclic(g) && Closed(g)
  {
    InitInv(g, o);
    RunInv(g, o, Init(g), es);
    CompletionsAreOrdered(g, o, es);
    OrderDescends(g, o, After(g, o, Init(g), es), CompletionLog(g, o, Init(g), es));
  }

  lemma NeededDone(g: Graph, o: Oracle, s: State)
    requires Inv(g, o, s) && IsTerminal(g, s) && NothingPending(s) && Closed(g)
    ensures NeededSucceed(g, o)
  {
    forall n, d | n in g && d in g[n].deps ensures d in g && SomeAttemptSucceeds(g, o, d) {
      assert NodeOk(g, o, s, n) && NodeOk(g, o, s, d);
    }
  }

  /** A maximal run leaves nothing pending exactly when the dependencies have no cycle and every task
      that another one depends on exists and succeeds within its attempts. */
  lemma NothingPendingIff(g: Graph, o: Oracle, es: seq<Event>)
    requires IsRun(g, o, Init(g), es) && IsTerminal(g, After(g, o, Init(g), es))
    ensures NothingPending(After(g, o, Init(g), es)) <==> Acyclic(g) && NeededSucceed(g, o)
  {
    var t := After(g, o, Init(g), es);
    InitInv(g, o);
    RunInv(g, o, Init(g), es);
    if NothingPending(t) {
      DoneIsAcyclic(g, o, es);
      NeededDone(g, o, t);
    } else if Acyclic(g) && NeededSucceed(g, o) {
      var n :| n in t && t[n].status == Pending;
      var m, d := BehindFailed(g, o, t, n);
    }
  }

  lemma AllSucceeded(g: Graph, o: Oracle, s: State)
    requires Inv(g, o, s) && AllCompleted(s)
    ensures NothingPending(s) && forall n | n in g :: SomeAttemptSucceeds(g, o, n)
  {
    forall n | n in g ensures SomeAttemptSucceeds(g, o, n) {
      assert NodeOk(g, o, s, n);
    }
  }

  /** A maximal run completes every task exactly when the dependencies have no cycle and miss nothing,
      and every task succeeds within its attempts. */
  lemma CompletesIff(g: Graph, o: Oracle, es: seq<Event>)
    requires IsRun(g, o, Init(g), es) && IsTerminal(g, After(g, o, Init(g), es))
    ensures AllCompleted(After(g, o, Init(g), es))
       <==> Acyclic(g) && Closed(g) && forall n | n in g :: SomeAttemptSucceeds(g, o, n)
  {
    var t := After(g, o, Init(g), es);
    InitInv(g, o);
    RunInv(g, o, Init(g), es);
    if AllCompleted(t) {
      AllSucceeded(g, o, t);
      DoneIsAcyclic(g, o, es);
    } else if Acyclic(g) && Closed(g) && forall n | n in g :: SomeAttemptSucceeds(g, o, n) {
      UnfailedCompletes(g, o, t);
    }
  }

  // ---------- Chains ----------

  /** Each task depends on the one before it, and the first on nothing. */
  predicate IsChain(g: Graph, order: seq<Id>) {
    && Lists(order, g)
    && forall i {:trigger g[order[i]]} | 0 <= i < |order| :: g[order[i]].deps == if i == 0 then [] else [order[i - 1]]
  }

  lemma {:induction false} ChainPrefixDone(g: Graph, o: Oracle, s: State, order: seq<Id>, i: nat, j: nat)
    requires IsChain(g, order) && Inv(g, o, s)
    requires i < j < |order| && DepsDone(g, s, order[j])
    ensures s[order[i]].status == Completed
    decreases j
  {
    assert order[j - 1] in g[order[j]].deps;
    if i < j - 1 {
      assert NodeOk(g, o, s, order[j - 1]);
      ChainPrefixDone(g, o, s, order, i, j - 1);
    }
  }

  lemma ChainNotBoth(g: Graph, o: Oracle, s: State, order: seq<Id>, i: nat, j: nat)
    requires IsChain(g, order) && Inv(g, o, s) && i < j < |order| && IsReady(g, s, order[j])
    ensures !IsReady(g, s, order[i])
  {
    ChainPrefixDone(g, o, s, order, i, j);
  }

  /** On a chain of any length, no reachable state has two ready tasks. */
  lemma ChainOneReady(g: Graph, o: Oracle, es: seq<Event>, order: seq<Id>, n: Id, m: Id)
    requires IsChain(g, order) && IsRun(g, o, Init(g), es)
    requires IsReady(g, After(g, o, Init(g), es), n) && IsReady(g, After(g, o, Init(g), es), m)
    ensures n == m
  {
    var s := After(g, o, Init(g), es);
    InitInv(g, o);
    RunInv(g, o, Init(g), es);
    var i :| 0 <= i < |order| && order[i] == n;
    var j :| 0 <= j < |order| && order[j] == m;
    if i < j {
      ChainNotBoth(g, o, s, order, i, j);
    } else if j < i {
      ChainNotBoth(g, o, s, order, j, i);
    }
  }
}
