/** Disciplined use of the control plane's engine is a run of the transition system of Schedule, so
    everything proved there holds of plans. */
module PlanRuns {
  import opened Schedule
  import opened ControlPlane

  predicate DistinctIds(vs: seq<StepView>) {
    forall i, j | 0 <= i < j < |vs| :: vs[i].id != vs[j].id
  }

  function Ids(vs: seq<StepView>): set<Id> {
    set i | 0 <= i < |vs| :: vs[i].id
  }

  /** Steps are looked up by id the way the calls do it: the first one counts. */
  function Lookup(vs: seq<StepView>, n: Id): (v: StepView)
    requires n in Ids(vs)
    ensures v.id == n
  {
    assert FirstIndex(vs, n) < |vs|;
    vs[FirstIndex(vs, n)]
  }

  function GraphOf(vs: seq<StepView>): Graph {
    map n | n in Ids(vs) :: Task(Lookup(vs, n).deps, Lookup(vs, n).maxRetries)
  }

  function StateOf(vs: seq<StepView>): State {
    map n | n in Ids(vs) :: NodeState(Lookup(vs, n).status, Lookup(vs, n).retries)
  }

  lemma LookupAt(vs: seq<StepView>, i: nat)
    requires DistinctIds(vs) && i < |vs|
    ensures vs[i].id in Ids(vs) && FirstIndex(vs, vs[i].id) == i && Lookup(vs, vs[i].id) == vs[i]
  {
  }

  datatype Call = Complete(id: Id, result: Payload) | Fail(id: Id)

  function AfterCall(vs: seq<StepView>, c: Call): seq<StepView> {
    match c
    case Complete(id, result) => Completing(vs, id, result)
    case Fail(id) => Failing(vs, id)
  }

  function AfterCalls(vs: seq<StepView>, calls: seq<Call>): seq<StepView>
    decreases |calls|
  {
    if calls == [] then vs else AfterCalls(AfterCall(vs, calls[0]), calls[1..])
  }

  lemma ViewReady(vs: seq<StepView>, i: nat)
    requires DistinctIds(vs) && i < |vs|
    ensures vs[i].status == Pending && DepsCompleted(vs, vs[i])
       <==> IsReady(GraphOf(vs), StateOf(vs), vs[i].id)
  {
  }

  /** `GetReadySteps` hands out exactly the steps whose attempt the transition system allows. */
  lemma {:induction false} ReadyAreEnabled(steps: seq<TaskStep>, all: seq<TaskStep>, s: TaskStep)
    requires DistinctIds(Views(all)) && forall t <- steps :: t in all
    ensures s in ReadyAmong(steps, Views(all))
       <==> s in steps && IsReady(GraphOf(Views(all)), StateOf(Views(all)), s.stepId)
  {
    if steps != [] {
      var last := steps[|steps| - 1];
      assert steps == steps[..|steps| - 1] + [last];
      ReadyAreEnabled(steps[..|steps| - 1], all, s);
      assert last in all;
      var i :| 0 <= i < |all| && all[i] == last;
      ViewReady(Views(all), i);
    }
  }

  /** A disciplined call reports on a ready step, and reports the outcome the oracle fixes. */
  predicate Obeys(vs: seq<StepView>, o: Oracle, c: Call) {
    && IsReady(GraphOf(vs), StateOf(vs), c.id)
    && c.Complete? == o(c.id, StateOf(vs)[c.id].retries)
  }

  predicate Disciplined(vs: seq<StepView>, o: Oracle, calls: seq<Call>)
    decreases |calls|
  {
    calls == [] || (Obeys(vs, o, calls[0]) && Disciplined(AfterCall(vs, calls[0]), o, calls[1..]))
  }

  lemma AfterCallAt(vs: seq<StepView>, o: Oracle, c: Call) returns (i: nat)
    requires DistinctIds(vs) && Obeys(vs, o, c)
    ensures i < |vs| && vs[i].id == c.id && Lookup(vs, c.id) == vs[i]
    ensures |AfterCall(vs, c)| == |vs|
    ensures forall j | 0 <= j < |vs| && j != i :: AfterCall(vs, c)[j] == vs[j]
    ensures AfterCall(vs, c)[i].id == c.id
    ensures AfterCall(vs, c)[i].deps == vs[i].deps && AfterCall(vs, c)[i].maxRetries == vs[i].maxRetries
    ensures NodeState(AfterCall(vs, c)[i].status, AfterCall(vs, c)[i].retries)
         == Outcome(Task(vs[i].deps, vs[i].maxRetries), vs[i].retries, c.Complete?)
  {
    i := FirstIndex(vs, c.id);
    LookupAt(vs, i);
  }

  lemma SameIds(vs: seq<StepView>, ws: seq<StepView>)
    requires |vs| == |ws| && forall i | 0 <= i < |vs| :: vs[i].id == ws[i].id
    ensures Ids(vs) == Ids(ws)
  {
  }

  lemma CallAt(vs: seq<StepView>, o: Oracle, c: Call, n: Id)
    requires DistinctIds(vs) && DistinctIds(AfterCall(vs, c)) && Obeys(vs, o, c)
    requires n in Ids(vs) && n in Ids(AfterCall(vs, c))
    ensures GraphOf(AfterCall(vs, c))[n] == GraphOf(vs)[n]
    ensures StateOf(AfterCall(vs, c))[n] == Apply(GraphOf(vs), o, StateOf(vs), Attempt(c.id))[n]
  {
    var i := AfterCallAt(vs, o, c);
    var j := FirstIndex(vs, n);
    LookupAt(vs, j);
    LookupAt(AfterCall(vs, c), j);
  }

  lemma CallKeepsIds(vs: seq<StepView>, o: Oracle, c: Call)
    requires DistinctIds(vs) && Obeys(vs, o, c)
    ensures DistinctIds(AfterCall(vs, c)) && Ids(AfterCall(vs, c)) == Ids(vs)
  {
    var i := AfterCallAt(vs, o, c);
    SameIds(vs, AfterCall(vs, c));
  }

  lemma CallKeepsGraph(vs: seq<StepView>, o: Oracle, c: Call)
    requires DistinctIds(vs) && Obeys(vs, o, c)
    ensures DistinctIds(AfterCall(vs, c)) && Ids(AfterCall(vs, c)) == Ids(vs)
    ensures GraphOf(AfterCall(vs, c)) == GraphOf(vs)
  {
    CallKeepsIds(vs, o, c);
    var g, g' := GraphOf(AfterCall(vs, c)), GraphOf(vs);
    forall n | n in g' ensures g[n] == g'[n] {
      CallAt(vs, o, c, n);
    }
    SameTasks(g, g');
  }

  lemma CallMoves(vs: seq<StepView>, o: Oracle, c: Call)
    requires DistinctIds(vs) && Obeys(vs, o, c)
    ensures StateOf(AfterCall(vs, c)) == Apply(GraphOf(vs), o, StateOf(vs), Attempt(c.id))
  {
    CallKeepsIds(vs, o, c);
    var s, s' := StateOf(AfterCall(vs, c)), Apply(GraphOf(vs), o, StateOf(vs), Attempt(c.id));
    forall n | n in Ids(vs) ensures s[n] == s'[n] {
      CallAt(vs, o, c, n);
    }
    SameEntries(s, s');
  }

  /** One disciplined call is one attempt of the transition system. */
  lemma CallIsAttempt(vs: seq<StepView>, o: Oracle, c: Call)
    requires DistinctIds(vs) && Obeys(vs, o, c)
    ensures DistinctIds(AfterCall(vs, c)) && GraphOf(AfterCall(vs, c)) == GraphOf(vs)
    ensures StateOf(AfterCall(vs, c)) == Apply(GraphOf(vs), o, StateOf(vs), Attempt(c.id))
  {
    CallKeepsGraph(vs, o, c);
    CallMoves(vs, o, c);
  }

  lemma SameTasks(g: Graph, g': Graph)
    requires g.Keys == g'.Keys && forall n | n in g :: g[n] == g'[n]
    ensures g == g'
  {
  }

  lemma SameEntries(s: State, s': State)
    requires s.Keys == s'.Keys && forall n | n in s :: s[n] == s'[n]
    ensures s == s'
  {
  }

  function Moves(calls: seq<Call>): (es: seq<Event>)
    ensures |es| == |calls|
  {
    seq(|calls|, i requires 0 <= i < |calls| => Attempt(calls[i].id))
  }

  lemma MovesAreAttempts(calls: seq<Call>)
    ensures |Moves(calls)| == |calls| && forall e <- Moves(calls) :: e.Attempt?
  {
  }

  lemma MovesSplit(calls: seq<Call>)
    requires calls != []
    ensures Moves(calls) == [Attempt(calls[0].id)] + Moves(calls[1..])
  {
  }

  /** Any sequence of disciplined calls is a run of the transition system. */
  lemma {:induction false} CallsAreRun(vs: seq<StepView>, o: Oracle, calls: seq<Call>)
    requires DistinctIds(vs) && Disciplined(vs, o, calls)
    ensures DistinctIds(AfterCalls(vs, calls)) && GraphOf(AfterCalls(vs, calls)) == GraphOf(vs)
    ensures IsRun(GraphOf(vs), o, StateOf(vs), Moves(calls))
    ensures StateOf(AfterCalls(vs, calls)) == After(GraphOf(vs), o, StateOf(vs), Moves(calls))
    decreases |calls|
  {
    if calls != [] {
      var c, rest := calls[0], calls[1..];
      CallIsAttempt(vs, o, c);
      CallsAreRun(AfterCall(vs, c), o, rest);
      MovesSplit(calls);
      RunCons(GraphOf(vs), o, StateOf(vs), Attempt(c.id), Moves(rest));
    }
  }

  predicate IsUnstarted(vs: seq<StepView>) {
    forall v <- vs :: v.status == Pending && v.retries == 0
  }

  /** No step is left that `get_ready_steps` would hand out. */
  predicate Exhausted(vs: seq<StepView>) {
    forall v <- vs :: !(v.status == Pending && DepsCompleted(vs, v))
  }

  predicate DrivesToEnd(vs: seq<StepView>, o: Oracle, calls: seq<Call>) {
    Disciplined(vs, o, calls) && Exhausted(AfterCalls(vs, calls))
  }

  lemma UnstartedIsInit(vs: seq<StepView>)
    requires IsUnstarted(vs)
    ensures StateOf(vs) == Init(GraphOf(vs))
  {
  }

  lemma ExhaustedIsTerminal(vs: seq<StepView>)
    requires DistinctIds(vs) && Exhausted(vs) && forall v <- vs :: v.status != Running
    ensures IsTerminal(GraphOf(vs), StateOf(vs))
  {
  }

  /** Two drivers that report on the ready steps of a fresh plan in different orders, until no step
      is ready, leave every step with the same status and the same number of retries. */
  lemma DriversAgree(vs: seq<StepView>, o: Oracle, calls: seq<Call>, calls': seq<Call>)
    requires DistinctIds(vs) && IsUnstarted(vs)
    requires DrivesToEnd(vs, o, calls) && DrivesToEnd(vs, o, calls')
    ensures StateOf(AfterCalls(vs, calls)) == StateOf(AfterCalls(vs, calls'))
  {
    UnstartedIsInit(vs);
    forall cs | cs in {calls, calls'}
      ensures IsRun(GraphOf(vs), o, Init(GraphOf(vs)), Moves(cs))
      ensures StateOf(AfterCalls(vs, cs)) == After(GraphOf(vs), o, Init(GraphOf(vs)), Moves(cs))
      ensures IsTerminal(GraphOf(vs), StateOf(AfterCalls(vs, cs)))
    {
      CallsAreRun(vs, o, cs);
      NeverRunning(vs, cs);
      ExhaustedIsTerminal(AfterCalls(vs, cs));
    }
    Confluence(GraphOf(vs), o, Moves(calls), Moves(calls'));
  }

  /** The calls never leave a step running: they report whole attempts. */
  lemma {:induction false} NeverRunning(vs: seq<StepView>, calls: seq<Call>)
    requires forall v <- vs :: v.status != Running
    ensures forall v <- AfterCalls(vs, calls) :: v.status != Running
    decreases |calls|
  {
    if calls != [] {
      NeverRunning(AfterCall(vs, calls[0]), calls[1..]);
    }
  }

  // ---------- Every driver obeys some oracle ----------

  /** Every call reports on a step that is ready when it is made; nothing is said of what it reports. */
  predicate OnReady(vs: seq<StepView>, calls: seq<Call>)
    decreases |calls|
  {
    calls == []
    || (IsReady(GraphOf(vs), StateOf(vs), calls[0].id) && OnReady(AfterCall(vs, calls[0]), calls[1..]))
  }

  /** What the calls report, as an oracle. */
  function Recorded(vs: seq<StepView>, calls: seq<Call>): Oracle
    requires OnReady(vs, calls)
    decreases |calls|
  {
    if calls == [] then (n: Id, k: int) => false
    else
      var c, later := calls[0], Recorded(AfterCall(vs, calls[0]), calls[1..]);
      var failed := StateOf(vs)[c.id].retries;
      (n: Id, k: int) => if n == c.id && k == failed then c.Complete? else later(n, k)
  }

  /** This attempt has been made: no later call is about it. */
  predicate IsSpent(s: State, n: Id, k: int) {
    n in s && (s[n].status != Pending || s[n].retries > k)
  }

  lemma SpentAfter(g: Graph, o: Oracle, s: State, c: Id, n: Id, k: int)
    requires Enabled(g, s, Attempt(c)) && (IsSpent(s, n, k) || (c == n && k == s[c].retries))
    ensures IsSpent(Apply(g, o, s, Attempt(c)), n, k)
  {
  }

  lemma SpentStays(vs: seq<StepView>, o: Oracle, c: Call, n: Id, k: int)
    requires DistinctIds(vs) && Obeys(vs, o, c)
    requires IsSpent(StateOf(vs), n, k) || (c.id == n && k == StateOf(vs)[c.id].retries)
    ensures IsSpent(StateOf(AfterCall(vs, c)), n, k)
  {
    CallMoves(vs, o, c);
    SpentAfter(GraphOf(vs), o, StateOf(vs), c.id, n, k);
  }

  lemma {:induction false} SameAhead(vs: seq<StepView>, o: Oracle, o': Oracle, n: Id, k: int, calls: seq<Call>)
    requires DistinctIds(vs) && Disciplined(vs, o, calls) && IsSpent(StateOf(vs), n, k)
    requires forall m, j | m != n || j != k :: o'(m, j) == o(m, j)
    ensures Disciplined(vs, o', calls)
    decreases |calls|
  {
    if calls != [] {
      CallKeepsIds(vs, o, calls[0]);
      SpentStays(vs, o, calls[0], n, k);
      SameAhead(AfterCall(vs, calls[0]), o, o', n, k, calls[1..]);
    }
  }

  /** No attempt is reported twice, so any reports on ready steps agree with one oracle. */
  lemma {:induction false} RecordedIsObeyed(vs: seq<StepView>, calls: seq<Call>)
    requires DistinctIds(vs) && OnReady(vs, calls)
    ensures Disciplined(vs, Recorded(vs, calls), calls)
    decreases |calls|
  {
    if calls != [] {
      var c, rest, o := calls[0], calls[1..], Recorded(vs, calls);
      var ws := AfterCall(vs, c);
      assert Obeys(vs, o, c);
      CallKeepsIds(vs, o, c);
      SpentStays(vs, o, c, c.id, StateOf(vs)[c.id].retries);
      RecordedIsObeyed(ws, rest);
      SameAhead(ws, Recorded(ws, rest), o, c.id, StateOf(vs)[c.id].retries, rest);
    }
  }

  /** Every driver of a fresh plan that reports on ready steps, whatever it reports and whenever it stops:
      its calls are a run of the transition system. */
  lemma AnyDriverRuns(vs: seq<StepView>, calls: seq<Call>)
    requires DistinctIds(vs) && IsUnstarted(vs) && OnReady(vs, calls)
    ensures DistinctIds(AfterCalls(vs, calls)) && GraphOf(AfterCalls(vs, calls)) == GraphOf(vs)
    ensures IsRun(GraphOf(vs), Recorded(vs, calls), Init(GraphOf(vs)), Moves(calls))
    ensures StateOf(AfterCalls(vs, calls)) == After(GraphOf(vs), Recorded(vs, calls), Init(GraphOf(vs)), Moves(calls))
  {
    RecordedIsObeyed(vs, calls);
    CallsAreRun(vs, Recorded(vs, calls), calls);
    UnstartedIsInit(vs);
  }

  /** So every completed or failed step of such a plan has all its dependencies completed. */
  lemma AnyDriverIsSafe(vs: seq<StepView>, calls: seq<Call>)
    requires DistinctIds(vs) && IsUnstarted(vs) && OnReady(vs, calls)
    ensures var g, s := GraphOf(vs), StateOf(AfterCalls(vs, calls));
            s.Keys == g.Keys && forall n | n in g && s[n].status != Pending :: DepsDone(g, s, n)
  {
    var g, o := GraphOf(vs), Recorded(vs, calls);
    AnyDriverRuns(vs, calls);
    InitInv(g, o);
    RunInv(g, o, Init(g), Moves(calls));
    var s := StateOf(AfterCalls(vs, calls));
    forall n | n in g && s[n].status != Pending ensures DepsDone(g, s, n) {
      assert NodeOk(g, o, s, n);
    }
  }

  /** And it can be made no more reports than the allowances of all its steps together. */
  lemma AnyDriverStops(vs: seq<StepView>, calls: seq<Call>, order: seq<Id>)
    requires DistinctIds(vs) && IsUnstarted(vs) && OnReady(vs, calls) && Lists(order, GraphOf(vs))
    ensures |calls| <= TotalBound(GraphOf(vs), order)
  {
    AnyDriverRuns(vs, calls);
    MovesAreAttempts(calls);
    WholeAttemptsBounded(GraphOf(vs), Recorded(vs, calls), Moves(calls), order);
  }

  // ---------- Plans made by decomposition ----------

  lemma ChainIds(ids: seq<Id>)
    requires NoDup(ids)
    ensures DistinctIds(Linked(FreshViews(ids), |ids|)) && IsUnstarted(Linked(FreshViews(ids), |ids|))
    ensures forall i {:trigger Linked(FreshViews(ids), |ids|)[i]} | 0 <= i < |ids| ::
              Linked(FreshViews(ids), |ids|)[i].id == ids[i]
  {
  }

  lemma ChainAt(ids: seq<Id>, i: nat)
    requires NoDup(ids) && i < |ids|
    ensures ids[i] in GraphOf(Linked(FreshViews(ids), |ids|))
    ensures GraphOf(Linked(FreshViews(ids), |ids|))[ids[i]].deps == if i == 0 then [] else [ids[i - 1]]
  {
    ChainIds(ids);
    LookupAt(Linked(FreshViews(ids), |ids|), i);
  }

  lemma ChainListed(ids: seq<Id>, n: Id)
    requires NoDup(ids) && n in Ids(Linked(FreshViews(ids), |ids|))
    ensures n in ids
  {
  }

  lemma ChainIsChain(ids: seq<Id>)
    requires NoDup(ids)
    ensures IsChain(GraphOf(Linked(FreshViews(ids), |ids|)), ids)
  {
    var g := GraphOf(Linked(FreshViews(ids), |ids|));
    forall i | 0 <= i < |ids| ensures ids[i] in g {
      ChainAt(ids, i);
    }
    forall i {:trigger g[ids[i]]} | 0 <= i < |ids| ensures g[ids[i]].deps == if i == 0 then [] else [ids[i - 1]] {
      ChainAt(ids, i);
    }
    forall n | n in g ensures n in ids {
      ChainListed(ids, n);
    }
  }

  /** `get_ready_steps` would return the step at this place. */
  predicate HandedOut(vs: seq<StepView>, i: nat) {
    i < |vs| && vs[i].status == Pending && DepsCompleted(vs, vs[i])
  }

  /** In a plan of any length built by the decomposition loop, whatever was reported so far, at most
      one step is ready. */
  lemma OneStepAtATime(ids: seq<Id>, calls: seq<Call>, i: nat, j: nat)
    requires NoDup(ids) && OnReady(Linked(FreshViews(ids), |ids|), calls)
    requires HandedOut(AfterCalls(Linked(FreshViews(ids), |ids|), calls), i)
    requires HandedOut(AfterCalls(Linked(FreshViews(ids), |ids|), calls), j)
    ensures i == j
  {
    var vs := Linked(FreshViews(ids), |ids|);
    var ws := AfterCalls(vs, calls);
    ChainIds(ids);
    ChainIsChain(ids);
    AnyDriverRuns(vs, calls);
    ViewReady(ws, i);
    ViewReady(ws, j);
    ChainOneReady(GraphOf(vs), Recorded(vs, calls), Moves(calls), ids, ws[i].id, ws[j].id);
    LookupAt(ws, i);
    LookupAt(ws, j);
  }
}
