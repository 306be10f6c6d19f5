/** The workflow engine: a dictionary of mutable nodes that `execute_workflow` drives in rounds. */
module Workflow {
  import opened Wrappers
  import opened Schedule
  import opened Sublists

  class TaskNode {
    const id: Id
    const agentType: string
    const maxRetries: int
    var dependsOn: seq<Id>
    var status: Status
    var result: Option<Payload>
    var error: Option<string>
    var retries: int

    constructor (id: Id, agentType: string, dependsOn: seq<Id> := [], maxRetries: int := 3)
      ensures this.id == id && this.agentType == agentType && this.dependsOn == dependsOn
      ensures this.maxRetries == maxRetries && status == Pending && retries == 0 && result == None && error == None
    {
      this.id, this.agentType, this.dependsOn, this.maxRetries := id, agentType, dependsOn, maxRetries;
      status, retries, result, error := Pending, 0, None, None;
    }

    predicate Mirrors(n: Id, t: Task, x: NodeState)
      reads this
    {
      id == n && t == Task(dependsOn, maxRetries) && x == NodeState(status, retries)
    }

    /** The node runs, then completes with what the attempt yielded, or keeps the message of its failure,
        counts it and is retried or given up. */
    method Execute(ok: bool, payload: Payload, message: string)
      modifies this
      ensures dependsOn == old(dependsOn)
      ensures NodeState(status, retries) == Outcome(Task(dependsOn, maxRetries), old(retries), ok)
      ensures result == if ok then Some(payload) else old(result)
      ensures error == if ok then old(error) else Some(message)
    {
      status := Running;
      if ok {
        result := Some(payload);
        status := Completed;
      } else {
        error := Some(message);
        retries := retries + 1;
        if retries >= maxRetries {
          status := Failed;
        } else {
          status := Pending;
        }
      }
    }
  }

  /** How the readiness test of one node ends: it looks dependencies up in order, stops at the first
      one that is not completed, and raises on one that is not in the dictionary. */
  datatype Scan = Met | Unmet | Missing

  function ScanDeps(s: State, deps: seq<Id>): Scan {
    if deps == [] then Met
    else if deps[0] !in s then Missing
    else if s[deps[0]].status != Completed then Unmet
    else ScanDeps(s, deps[1..])
  }

  function ScanNode(g: Graph, s: State, n: Id): Scan
    requires n in g && n in s
  {
    if s[n].status != Pending then Unmet else ScanDeps(s, g[n].deps)
  }

  lemma {:induction false} ScanMet(s: State, deps: seq<Id>)
    ensures ScanDeps(s, deps) == Met <==> forall d <- deps :: d in s && s[d].status == Completed
  {
    if deps != [] {
      ScanMet(s, deps[1..]);
    }
  }

  /** The test finds a node ready exactly when an attempt at it is allowed. */
  lemma ScanIsReady(g: Graph, s: State, n: Id)
    requires n in g && n in s
    ensures ScanNode(g, s, n) == Met <==> IsReady(g, s, n)
  {
    ScanMet(s, g[n].deps);
  }

  /** Whether asking for the ready nodes raises a KeyError. */
  predicate Raises(g: Graph, s: State, order: seq<Id>) {
    exists n <- order :: n in g && n in s && ScanNode(g, s, n) == Missing
  }

  lemma ClosedNeverRaises(g: Graph, s: State, order: seq<Id>)
    requires Closed(g) && s.Keys == g.Keys
    ensures !Raises(g, s, order)
  {
    forall n | n in g ensures ScanNode(g, s, n) != Missing {
      ScanInside(s, g[n].deps);
    }
  }

  lemma {:induction false} ScanInside(s: State, deps: seq<Id>)
    requires forall d <- deps :: d in s
    ensures ScanDeps(s, deps) != Missing
  {
    if deps != [] {
      ScanInside(s, deps[1..]);
    }
  }

  /** The ready ones among the first `i` nodes, in dictionary order. */
  function ReadyUpTo(g: Graph, s: State, order: seq<Id>, i: nat): seq<Id>
    requires i <= |order|
  {
    if i == 0 then []
    else ReadyUpTo(g, s, order, i - 1) + if IsReady(g, s, order[i - 1]) then [order[i - 1]] else []
  }

  lemma {:induction false} ReadyMember(g: Graph, s: State, order: seq<Id>, i: nat)
    requires i <= |order| && NoDup(order)
    ensures forall n :: n in ReadyUpTo(g, s, order, i) <==> n in order[..i] && IsReady(g, s, n)
    ensures NoDup(ReadyUpTo(g, s, order, i))
  {
    if 0 < i {
      ReadyMember(g, s, order, i - 1);
      assert order[..i] == order[..i - 1] + [order[i - 1]];
    }
  }

  lemma {:induction false} ReadyKeeps(g: Graph, s: State, order: seq<Id>, n: nat) returns (at: seq<nat>)
    requires n <= |order|
    ensures Keeps(order[..n], ReadyUpTo(g, s, order, n), at)
    ensures forall i | 0 <= i < n :: i in at <==> IsReady(g, s, order[i])
  {
    at := [];
    if n > 0 {
      at := ReadyKeeps(g, s, order, n - 1);
      assert order[..n] == order[..n - 1] + [order[n - 1]];
      KeepsNext(order[..n - 1], ReadyUpTo(g, s, order, n - 1), at, order[n - 1]);
      if IsReady(g, s, order[n - 1]) {
        at := at + [n - 1];
      }
    }
  }

  /** The ids are those of the ready nodes, each once, in dictionary order. */
  ghost predicate ListsReady(g: Graph, s: State, order: seq<Id>, ids: seq<Id>) {
    exists at: seq<nat> {:trigger Keeps(order, ids, at)} ::
      Keeps(order, ids, at) && forall i | 0 <= i < |order| :: i in at <==> IsReady(g, s, order[i])
  }

  lemma ReadyListed(g: Graph, s: State, order: seq<Id>)
    ensures ListsReady(g, s, order, ReadyUpTo(g, s, order, |order|))
  {
    var at := ReadyKeeps(g, s, order, |order|);
    assert order[..|order|] == order;
  }

  /** The lookup of a pending node runs into a missing dependency at this place, all before it being
      completed. */
  predicate Stumbles(g: Graph, s: State, n: Id, i: nat) {
    && n in g && n in s && s[n].status == Pending && i < |g[n].deps|
    && g[n].deps[i] !in s
    && forall j | 0 <= j < i :: g[n].deps[j] in s && s[g[n].deps[j]].status == Completed
  }

  lemma {:induction false} ScanMissing(s: State, deps: seq<Id>)
    ensures ScanDeps(s, deps) == Missing <==>
            exists i | 0 <= i < |deps| ::
              deps[i] !in s && forall j | 0 <= j < i :: deps[j] in s && s[deps[j]].status == Completed
  {
    if deps != [] && deps[0] in s && s[deps[0]].status == Completed {
      var rest := deps[1..];
      ScanMissing(s, rest);
      if i :| 0 <= i < |rest| && rest[i] !in s && forall j | 0 <= j < i :: rest[j] in s && s[rest[j]].status == Completed {
        assert deps[i + 1] == rest[i];
        assert forall j | 0 < j < i + 1 :: deps[j] == rest[j - 1];
      }
      if i :| 0 <= i < |deps| && deps[i] !in s && forall j | 0 <= j < i :: deps[j] in s && s[deps[j]].status == Completed {
        assert rest[i - 1] == deps[i];
        assert forall j | 0 <= j < i - 1 :: rest[j] == deps[j + 1];
      }
    }
  }

  /** Asking for the ready nodes raises exactly when some lookup stumbles. */
  lemma RaisesIff(g: Graph, s: State, order: seq<Id>)
    ensures Raises(g, s, order) <==> exists n, i: nat :: n in order && Stumbles(g, s, n, i)
  {
    if Raises(g, s, order) {
      var n :| n in order && n in g && n in s && ScanNode(g, s, n) == Missing;
      ScanMissing(s, g[n].deps);
      var i :| 0 <= i < |g[n].deps| && g[n].deps[i] !in s
               && forall j | 0 <= j < i :: g[n].deps[j] in s && s[g[n].deps[j]].status == Completed;
      assert Stumbles(g, s, n, i);
    }
    if n, i: nat :| n in order && Stumbles(g, s, n, i) {
      ScanMissing(s, g[n].deps);
    }
  }

  datatype Ready = Ready(ids: seq<Id>) | KeyError

  class WorkflowDAG {
    var nodes: map<Id, TaskNode>
    /** The insertion order of the dictionary. */
    var order: seq<Id>
    /** The nodes' dependencies and allowances, and their statuses and counters, as values. */
    ghost var tasks: Graph
    ghost var now: State

    constructor ()
      ensures Valid() && nodes == map[] && order == []
    {
      nodes, order := map[], [];
      tasks, now := map[], map[];
    }

    ghost predicate Valid()
      reads this, nodes.Values
    {
      && Keyed()
      && tasks.Keys == nodes.Keys && now.Keys == nodes.Keys
      && (forall n {:trigger nodes[n]} {:trigger now[n]} | n in nodes :: nodes[n].Mirrors(n, tasks[n], now[n]))
    }

    /** The dictionary holds every node under its own id, and remembers the order of insertion. */
    ghost predicate Keyed()
      reads this
    {
      && NoDup(order)
      && (forall n <- order :: n in nodes)
      && (forall n <- nodes :: n in order && nodes[n].id == n)
    }

    /** Nothing is started, and each node depends on the one inserted before it. */
    ghost predicate IsNewChain(ids: seq<Id>)
      reads this
    {
      order == ids && IsChain(tasks, ids) && now == Init(tasks) && forall n <- tasks :: tasks[n].maxRetries == 3
    }

    /** The first `k` nodes, and no others, in their order. */
    ghost predicate HoldsFirst(list: seq<TaskNode>, k: nat)
      reads this
    {
      AreFirst(nodes, order, list, k)
    }

    /** Takes note of the nodes as they are now. */
    ghost method TakeNote(list: seq<TaskNode>)
      requires Keyed() && HoldsFirst(list, |list|)
      requires forall i | 0 <= i < |list| :: LinkedNew(list, i)
      modifies this`tasks, this`now
      ensures Valid() && IsNewChain(IdsOf(list))
    {
      tasks := map n | n in nodes :: Task(nodes[n].dependsOn, nodes[n].maxRetries);
      now := map n | n in nodes :: NodeState(nodes[n].status, nodes[n].retries);
      CreatedIsChain(this, list);
    }

    method AddNode(node: TaskNode)
      requires Valid() && node.id !in nodes
      modifies this
      ensures Valid() && nodes == old(nodes)[node.id := node] && order == old(order) + [node.id]
    {
      nodes := nodes[node.id := node];
      order := order + [node.id];
      tasks := tasks[node.id := Task(node.dependsOn, node.maxRetries)];
      now := now[node.id := NodeState(node.status, node.retries)];
    }

    method Scan(n: Id) returns (scan: Scan)
      requires Valid() && n in nodes
      ensures scan == ScanNode(tasks, now, n)
    {
      var node := nodes[n];
      if node.status != Pending {
        return Unmet;
      }
      for j := 0 to |node.dependsOn|
        invariant ScanDeps(now, node.dependsOn) == ScanDeps(now, node.dependsOn[j..])
      {
        var d := node.dependsOn[j];
        if d !in nodes {
          return Missing;
        }
        if nodes[d].status != Completed {
          return Unmet;
        }
        assert node.dependsOn[j..][1..] == node.dependsOn[j + 1..];
      }
      return Met;
    }

    /** The ready nodes in dictionary order, or the KeyError of a dependency that does not exist. */
    method GetReadyNodes() returns (ready: Ready)
      requires Valid()
      ensures ready.KeyError? <==> Raises(tasks, now, order)
      ensures ready.Ready? ==> ready.ids == ReadyUpTo(tasks, now, order, |order|)
      ensures ready.Ready? ==> ListsReady(tasks, now, order, ready.ids)
    {
      var ids := [];
      for i := 0 to |order|
        invariant ids == ReadyUpTo(tasks, now, order, i)
        invariant forall j | 0 <= j < i :: ScanNode(tasks, now, order[j]) != Missing
      {
        var scan := Scan(order[i]);
        if scan == Missing {
          assert order[i] in order;
          return KeyError;
        }
        ScanIsReady(tasks, now, order[i]);
        if scan == Met {
          ids := ids + [order[i]];
        }
      }
      ReadyListed(tasks, now, order);
      return Ready(ids);
    }

    method HasPendingWork() returns (b: bool)
      requires Valid()
      ensures b <==> SomeWork(now)
    {
      b := exists n <- nodes :: nodes[n].status == Pending || nodes[n].status == Running;
    }

    method AllNodesCompleted() returns (b: bool)
      requires Valid()
      ensures b <==> AllCompleted(now)
    {
      b := forall n <- nodes :: nodes[n].status == Completed;
    }

    /** One attempt at one node, the others staying as they are.  The oracle says whether it succeeds; what
        it yields, or what it complains of, is arbitrary. */
    method ExecuteNode(n: Id, o: Oracle)
      requires Valid() && n in nodes && IsReady(tasks, now, n)
      modifies this`now, nodes[n]
      ensures Valid() && now == Apply(tasks, o, old(now), Attempt(n))
    {
      var node := nodes[n];
      var payload: Payload, message: string := *, *;
      node.Execute(o(n, node.retries), payload, message);
      now := now[n := NodeState(node.status, node.retries)];
      assert node.Mirrors(n, tasks[n], now[n]);
      forall m | m in nodes && m != n ensures nodes[m].Mirrors(m, tasks[m], now[m]) {
        assert old(nodes[m].Mirrors(m, tasks[m], now[m])) && nodes[m] != node;
      }
    }
  }

  /** How `execute_workflow` ends.  `Spins` stands for its endless wait: nothing is ready, something
      is pending, and no other code changes the nodes, so the loop sleeps and tries again for ever. */
  datatype Exit = NotFound | Finished(allCompleted: bool) | Spins | Raised

  class WorkflowEngine {
    var dags: map<string, WorkflowDAG>

    constructor ()
      ensures dags == map[]
    {
      dags := map[];
    }

    static method LinkNode(nodes: seq<TaskNode>, i: nat)
      requires 0 < i < |nodes| && AllDiffer(nodes)
      modifies {nodes[i]}`dependsOn
      ensures DepsOf(nodes) == old(DepsOf(nodes))[i := Sequential(nodes, i, old(nodes[i].dependsOn))]
    {
      if nodes[i].dependsOn == [] {
        nodes[i].dependsOn := nodes[i].dependsOn + [nodes[i - 1].id];
      }
      assert nodes[i].dependsOn == Sequential(nodes, i, old(nodes[i].dependsOn));
      assert DepsOf(nodes) == old(DepsOf(nodes))[i := nodes[i].dependsOn];
    }

    /** A node without dependencies, unless it is the first, comes to depend on the one before it. */
    static method AddSequentialEdges(nodes: seq<TaskNode>)
      requires AllDiffer(nodes)
      modifies nodes`dependsOn
      ensures DepsOf(nodes) == LinkedDeps(nodes, old(DepsOf(nodes)), |nodes|)
      ensures forall i | 0 <= i < |nodes| ::
                nodes[i].dependsOn == if i > 0 && old(nodes[i].dependsOn) == [] then [nodes[i - 1].id]
                                      else old(nodes[i].dependsOn)
    {
      var i := 1;
      while i < |nodes|
        invariant 1 <= i
        invariant DepsOf(nodes) == LinkedDeps(nodes, old(DepsOf(nodes)), i)
      {
        LinkNode(nodes, i);
        i := i + 1;
      }
    }

    /** The nodes of a new workflow, none started; their ids come from the caller. */
    static method DecomposeTask(ids: seq<Id>) returns (nodes: seq<TaskNode>)
      requires |ids| == 5
      ensures IdsOf(nodes) == ids && forall i | 0 <= i < |nodes| :: fresh(nodes[i]) && Untouched(nodes[i])
      ensures forall i | 0 <= i < |nodes| :: nodes[i].agentType == TemplateAgents()[i]
    {
      var n0 := new TaskNode(ids[0], "conductor");
      var n1 := new TaskNode(ids[1], "desktop");
      var n2 := new TaskNode(ids[2], "browser");
      var n3 := new TaskNode(ids[3], "research");
      var n4 := new TaskNode(ids[4], "desktop");
      nodes := [n0, n1, n2, n3, n4];
    }

    static method AddAll(dag: WorkflowDAG, nodes: seq<TaskNode>)
      requires dag.Valid() && dag.nodes == map[] && dag.order == [] && NoDup(IdsOf(nodes))
      modifies dag
      ensures dag.Valid() && dag.HoldsFirst(nodes, |nodes|)
    {
      for k := 0 to |nodes|
        invariant dag.Valid() && dag.HoldsFirst(nodes, k)
      {
        FirstGrow(dag.nodes, dag.order, nodes, k);
        dag.AddNode(nodes[k]);
      }
    }

    static method LinkNew(nodes: seq<TaskNode>)
      requires NoDup(IdsOf(nodes)) && forall i | 0 <= i < |nodes| :: Untouched(nodes[i])
      modifies nodes
      ensures forall i | 0 <= i < |nodes| :: LinkedNew(nodes, i)
    {
      forall i, j | 0 <= i < j < |nodes| ensures nodes[i] != nodes[j] {
        assert IdsOf(nodes)[i] != IdsOf(nodes)[j];
      }
      AddSequentialEdges(nodes);
      forall i | 0 <= i < |nodes| ensures LinkedNew(nodes, i) {
        assert DepsOf(nodes)[i] == Sequential(nodes, i, []);
      }
    }

    static method Assemble(nodes: seq<TaskNode>) returns (dag: WorkflowDAG)
      requires NoDup(IdsOf(nodes)) && forall i | 0 <= i < |nodes| :: Untouched(nodes[i])
      modifies nodes
      ensures fresh(dag) && dag.Valid() && dag.IsNewChain(IdsOf(nodes)) && dag.HoldsFirst(nodes, |nodes|)
    {
      dag := new WorkflowDAG();
      AddAll(dag, nodes);
      LinkNew(nodes);
      dag.TakeNote(nodes);
    }

    /** Registers a new workflow: a chain of unstarted nodes. */
    method CreateWorkflow(dagId: string, ids: seq<Id>)
      requires |ids| == 5 && NoDup(ids)
      modifies this
      ensures dagId in dags && dags == old(dags)[dagId := dags[dagId]] && fresh(dags[dagId])
      ensures dags[dagId].Valid() && dags[dagId].IsNewChain(ids)
      ensures forall i | 0 <= i < 5 :: ids[i] in dags[dagId].nodes
                                       && dags[dagId].nodes[ids[i]].agentType
                                          == ["conductor", "desktop", "browser", "research", "desktop"][i]
    {
      var nodes := DecomposeTask(ids);
      var dag := Assemble(nodes);
      assert forall i | 0 <= i < 5 :: nodes[i].id == ids[i];
      dags := dags[dagId := dag];
    }

    /** Runs one round: every node of the ready list once. */
    static method RunRound(dag: WorkflowDAG, ids: seq<Id>, o: Oracle) returns (ghost es: seq<Event>)
      requires dag.Valid() && Inv(dag.tasks, o, dag.now)
      requires NoDup(ids) && forall j | 0 <= j < |ids| :: IsReady(dag.tasks, dag.now, ids[j])
      modifies dag`now, dag.nodes.Values
      ensures dag.Valid()
      ensures Partway(dag.tasks, o, old(dag.now), ids, |ids|, es, dag.now)
    {
      es := [];
      for k := 0 to |ids|
        invariant dag.Valid() && Partway(dag.tasks, o, old(dag.now), ids, k, es, dag.now)
      {
        PartwayStep(dag.tasks, o, old(dag.now), ids, k, es, dag.now);
        dag.ExecuteNode(ids[k], o);
        es := es + [Attempt(ids[k])];
      }
    }

    /** Drives the workflow in rounds until nothing is pending, or the readiness test raises, or it
        would wait for ever.  The events of the run are handed back for the specification. */
    method ExecuteWorkflow(dagId: string, o: Oracle) returns (exit: Exit, ghost es: seq<Event>)
      requires dagId in dags ==> dags[dagId].Valid() && IsIdle(dags[dagId].tasks, o, dags[dagId].now)
      modifies (if dagId in dags then {dags[dagId]} else {})`now
      modifies if dagId in dags then dags[dagId].nodes.Values else {}
      ensures exit == NotFound <==> dagId !in dags
      ensures dagId in dags ==> dags[dagId].Valid()
      ensures dagId in dags ==> IsRun(dags[dagId].tasks, o, old(dags[dagId].now), es)
      ensures dagId in dags ==> dags[dagId].now == After(dags[dagId].tasks, o, old(dags[dagId].now), es)
      ensures dagId in dags ==> ExitFits(dags[dagId].tasks, dags[dagId].now, dags[dagId].order, exit)
    {
      es := [];
      if dagId !in dags {
        return NotFound, es;
      }
      var dag := dags[dagId];
      exit, es := Drive(dag, o);
    }

    /** One pass of the loop: asks for the ready nodes and runs them. */
    static method Pass(dag: WorkflowDAG, o: Oracle) returns (next: Pass, ghost es: seq<Event>)
      requires dag.Valid() && IsIdle(dag.tasks, o, dag.now)
      modifies dag`now, dag.nodes.Values
      ensures dag.Valid()
      ensures PassFits(dag.tasks, o, old(dag.now), dag.now, dag.order, next, es)
    {
      es := [];
      var ready := dag.GetReadyNodes();
      if ready.KeyError? {
        return Raising, es;
      }
      ReadyList(dag.tasks, o, dag.now, dag.order);
      if ready.ids == [] {
        return Waiting, es;
      }
      ghost var s := dag.now;
      es := RunRound(dag, ready.ids, o);
      RoundFits(dag.tasks, o, s, dag.now, dag.order, ready.ids, es);
      return Advanced, es;
    }

    static method Drive(dag: WorkflowDAG, o: Oracle) returns (exit: Exit, ghost es: seq<Event>)
      requires dag.Valid() && IsIdle(dag.tasks, o, dag.now)
      modifies dag`now, dag.nodes.Values
      ensures dag.Valid()
      ensures IsRun(dag.tasks, o, old(dag.now), es)
      ensures dag.now == After(dag.tasks, o, old(dag.now), es)
      ensures ExitFits(dag.tasks, dag.now, dag.order, exit)
    {
      es := [];
      ghost var g, s0 := dag.tasks, dag.now;
      var pending := dag.HasPendingWork();
      while pending
        invariant dag.Valid() && IsIdle(g, o, dag.now)
        invariant IsRun(g, o, s0, es) && dag.now == After(g, o, s0, es)
        invariant pending <==> SomeWork(dag.now)
        decreases Work(g, dag.now, 1, dag.order)
      {
        ghost var round;
        var next;
        next, round := Pass(dag, o);
        RunConcat(g, o, s0, es, round);
        es := es + round;
        if next.Raising? {
          return Raised, es;
        }
        if next.Waiting? {
          return Spins, es;
        }
        pending := dag.HasPendingWork();
      }
      var all := dag.AllNodesCompleted();
      return Finished(all), es;
    }
  }

  function IdsOf(nodes: seq<TaskNode>): (ids: seq<Id>)
    ensures |ids| == |nodes| && forall i | 0 <= i < |nodes| :: ids[i] == nodes[i].id
  {
    seq(|nodes|, i requires 0 <= i < |nodes| => nodes[i].id)
  }

  /** The agents of the five nodes of a new workflow. */
  function TemplateAgents(): seq<string> {
    ["conductor", "desktop", "browser", "research", "desktop"]
  }

  predicate AllDiffer(nodes: seq<TaskNode>) {
    forall i, j | 0 <= i < j < |nodes| :: nodes[i] != nodes[j]
  }

  function DepsOf(nodes: seq<TaskNode>): (r: seq<seq<Id>>)
    reads nodes
    ensures |r| == |nodes|
    ensures forall i {:trigger r[i]} {:trigger nodes[i]} | 0 <= i < |r| :: r[i] == nodes[i].dependsOn
  {
    seq(|nodes|, i requires 0 <= i < |nodes| reads nodes => nodes[i].dependsOn)
  }

  /** The first `n` nodes linked, the others as they were. */
  function LinkedDeps(nodes: seq<TaskNode>, deps: seq<seq<Id>>, n: int): (r: seq<seq<Id>>)
    requires |deps| == |nodes|
    ensures |r| == |deps|
    ensures forall i {:trigger r[i]} | 0 <= i < |r| :: r[i] == if i < n then Sequential(nodes, i, deps[i]) else deps[i]
  {
    seq(|deps|, i requires 0 <= i < |deps| => if i < n then Sequential(nodes, i, deps[i]) else deps[i])
  }

  predicate AreFirst(nodes: map<Id, TaskNode>, order: seq<Id>, list: seq<TaskNode>, k: nat) {
    && k <= |list| && order == IdsOf(list)[..k]
    && forall i | 0 <= i < k :: list[i].id in nodes && nodes[list[i].id] == list[i]
  }

  lemma FirstGrow(nodes: map<Id, TaskNode>, order: seq<Id>, list: seq<TaskNode>, k: nat)
    requires AreFirst(nodes, order, list, k) && k < |list| && NoDup(IdsOf(list))
    requires forall n <- nodes :: n in order
    ensures list[k].id !in nodes
    ensures AreFirst(nodes[list[k].id := list[k]], order + [list[k].id], list, k + 1)
  {
  }

  predicate Untouched(node: TaskNode)
    reads node
  {
    node.dependsOn == [] && node.status == Pending && node.retries == 0 && node.maxRetries == 3
  }

  predicate LinkedNew(nodes: seq<TaskNode>, i: nat)
    requires i < |nodes|
    reads nodes[i]
  {
    && nodes[i].dependsOn == Sequential(nodes, i, [])
    && nodes[i].status == Pending && nodes[i].retries == 0 && nodes[i].maxRetries == 3
  }

  predicate NewAt(g: Graph, s: State, order: seq<Id>, i: nat)
    requires i < |order|
  {
    && order[i] in g && order[i] in s && s[order[i]] == NodeState(Pending, 0)
    && g[order[i]] == Task(if i == 0 then [] else [order[i - 1]], 3)
  }

  lemma CreatedAt(dag: WorkflowDAG, nodes: seq<TaskNode>, i: nat)
    requires dag.Valid() && dag.HoldsFirst(nodes, |nodes|) && i < |nodes| && LinkedNew(nodes, i)
    ensures dag.order == IdsOf(nodes) && NewAt(dag.tasks, dag.now, dag.order, i)
  {
  }

  lemma NewIsChain(g: Graph, s: State, order: seq<Id>)
    requires Lists(order, g) && s.Keys == g.Keys
    requires forall i | 0 <= i < |order| :: NewAt(g, s, order, i)
    ensures IsChain(g, order) && s == Init(g) && forall n <- g :: g[n].maxRetries == 3
  {
    forall n | n in g ensures s[n] == NodeState(Pending, 0) && g[n].maxRetries == 3 {
      var i :| 0 <= i < |order| && order[i] == n;
      assert NewAt(g, s, order, i);
    }
    forall i {:trigger g[order[i]]} | 0 <= i < |order| ensures g[order[i]].deps == if i == 0 then [] else [order[i - 1]] {
      assert NewAt(g, s, order, i);
    }
  }

  /** Nodes without dependencies come out as a chain. */
  lemma CreatedIsChain(dag: WorkflowDAG, nodes: seq<TaskNode>)
    requires dag.Valid() && dag.HoldsFirst(nodes, |nodes|)
    requires forall i | 0 <= i < |nodes| :: LinkedNew(nodes, i)
    ensures dag.IsNewChain(IdsOf(nodes))
  {
    assert IdsOf(nodes)[..|nodes|] == IdsOf(nodes);
    forall i | 0 <= i < |dag.order| ensures NewAt(dag.tasks, dag.now, dag.order, i) {
      CreatedAt(dag, nodes, i);
    }
    NewIsChain(dag.tasks, dag.now, dag.order);
  }

  datatype Pass = Raising | Waiting | Advanced

  ghost predicate PassFits(g: Graph, o: Oracle, s: State, s': State, order: seq<Id>, next: Pass, es: seq<Event>) {
    && IsRun(g, o, s, es) && s' == After(g, o, s, es) && IsIdle(g, o, s')
    && match next
       case Raising => Raises(g, s', order)
       case Waiting => s' == s && IsTerminal(g, s') && !Raises(g, s', order)
       case Advanced => 0 <= Work(g, s', 1, order) < Work(g, s, 1, order)
  }

  function Sequential(nodes: seq<TaskNode>, i: nat, deps: seq<Id>): seq<Id>
    requires i < |nodes|
  {
    if 0 < i && deps == [] then [nodes[i - 1].id] else deps
  }

  predicate SomeWork(s: State) {
    exists n <- s :: s[n].status == Pending || s[n].status == Running
  }

  /** Between rounds: a reachable state with nothing running. */
  ghost predicate IsIdle(g: Graph, o: Oracle, s: State) {
    Inv(g, o, s) && forall n <- s :: s[n].status != Running
  }

  predicate ExitFits(g: Graph, s: State, order: seq<Id>, exit: Exit) {
    match exit
    case NotFound => false
    case Finished(all) => !SomeWork(s) && (all <==> AllCompleted(s))
    case Spins => IsTerminal(g, s) && SomeWork(s) && !Raises(g, s, order)
    case Raised => Raises(g, s, order)
  }

  /** The first `k` nodes of a round have had their attempt, and the others still may. */
  ghost predicate Partway(g: Graph, o: Oracle, s: State, ids: seq<Id>, k: nat, es: seq<Event>, s': State) {
    && |es| == k <= |ids| && (forall i | 0 <= i < k :: es[i] == Attempt(ids[i]))
    && IsRun(g, o, s, es) && s' == After(g, o, s, es) && Inv(g, o, s')
    && (forall j | k <= j < |ids| :: IsReady(g, s', ids[j]))
  }

  lemma PartwayStep(g: Graph, o: Oracle, s: State, ids: seq<Id>, k: nat, es: seq<Event>, s': State)
    requires NoDup(ids) && Partway(g, o, s, ids, k, es, s') && k < |ids|
    ensures IsReady(g, s', ids[k])
    ensures Partway(g, o, s, ids, k + 1, es + [Attempt(ids[k])], Apply(g, o, s', Attempt(ids[k])))
  {
    var next := Apply(g, o, s', Attempt(ids[k]));
    RunSnoc(g, o, s, es, Attempt(ids[k]));
    ApplyInv(g, o, s', Attempt(ids[k]));
    forall j | k < j < |ids| ensures IsReady(g, next, ids[j]) {
      assert next[ids[j]] == s'[ids[j]];
      assert DepsDone(g, next, ids[j]);
    }
  }

  /** What the ready list is: different nodes, all ready; when it is empty, none is. */
  lemma ReadyList(g: Graph, o: Oracle, s: State, order: seq<Id>)
    requires Lists(order, g) && IsIdle(g, o, s)
    ensures NoDup(ReadyUpTo(g, s, order, |order|))
    ensures forall j | 0 <= j < |ReadyUpTo(g, s, order, |order|)| :: IsReady(g, s, ReadyUpTo(g, s, order, |order|)[j])
    ensures ReadyUpTo(g, s, order, |order|) == [] ==> IsTerminal(g, s)
  {
    ReadyMember(g, s, order, |order|);
    assert order[..|order|] == order;
    var ids := ReadyUpTo(g, s, order, |order|);
    forall j | 0 <= j < |ids| ensures IsReady(g, s, ids[j]) {
      assert ids[j] in ids;
    }
    if ids == [] {
      forall n | n in s ensures !IsReady(g, s, n) {
        assert n in order && n !in ids;
      }
    }
  }

  lemma RoundFits(g: Graph, o: Oracle, s: State, s': State, order: seq<Id>, ids: seq<Id>, es: seq<Event>)
    requires Lists(order, g) && IsIdle(g, o, s)
    requires ids != [] && Partway(g, o, s, ids, |ids|, es, s')
    ensures PassFits(g, o, s, s', order, Advanced, es)
  {
    RoundWorks(g, o, s, es, order);
  }

  /** A round uses up work and leaves nothing running. */
  lemma RoundWorks(g: Graph, o: Oracle, s: State, round: seq<Event>, order: seq<Id>)
    requires Lists(order, g) && IsIdle(g, o, s) && IsRun(g, o, s, round)
    requires round != [] && forall e <- round :: e.Attempt?
    ensures IsIdle(g, o, After(g, o, s, round))
    ensures 0 <= Work(g, After(g, o, s, round), 1, order) < Work(g, s, 1, order)
  {
    RunInv(g, o, s, round);
    AttemptsLeaveIdle(g, o, s, round);
    RunWork(g, o, s, round, 1, order);
    WorkNonnegative(g, o, After(g, o, s, round), 1, order);
    AttemptsCharge(round);
  }

  lemma {:induction false} AttemptsLeaveIdle(g: Graph, o: Oracle, s: State, es: seq<Event>)
    requires IsRun(g, o, s, es) && forall e <- es :: e.Attempt?
    requires forall n <- s :: s[n].status != Running
    ensures forall n <- After(g, o, s, es) :: After(g, o, s, es)[n].status != Running
  {
    if es != [] {
      assert es[0] in es && forall e <- es[1..] :: e in es;
      AttemptsLeaveIdle(g, o, Apply(g, o, s, es[0]), es[1..]);
    }
  }

  /** `execute_workflow` leaves its loop exactly when the dependencies have no cycle and every node that
      another one depends on exists and succeeds within its attempts.  It reports completion exactly
      when, besides, every node succeeds.  Otherwise it raises, which takes a missing dependency, or it
      waits for ever. */
  lemma LoopExits(g: Graph, o: Oracle, es: seq<Event>, order: seq<Id>, exit: Exit)
    requires IsRun(g, o, Init(g), es) && ExitFits(g, After(g, o, Init(g), es), order, exit)
    ensures exit.Finished? <==> Acyclic(g) && NeededSucceed(g, o)
    ensures exit == Finished(true) <==> Acyclic(g) && Closed(g) && forall n | n in g :: SomeAttemptSucceeds(g, o, n)
    ensures exit.Raised? ==> !Closed(g)
    ensures !exit.NotFound?
  {
    var t := After(g, o, Init(g), es);
    InitInv(g, o);
    RunInv(g, o, Init(g), es);
    if exit.Raised? {
      if Closed(g) {
        ClosedNeverRaises(g, t, order);
      }
    } else {
      assert IsTerminal(g, t);
      NothingPendingIff(g, o, es);
      CompletesIff(g, o, es);
    }
  }

  lemma {:induction false} ScanKeeps(s: State, t: State, deps: seq<Id>)
    requires Extends(s, t) && ScanDeps(s, deps) == Missing
    ensures ScanDeps(t, deps) == Missing
  {
    if deps[0] in s {
      ScanKeeps(s, t, deps[1..]);
    }
  }

  lemma RaisingKeeps(g: Graph, o: Oracle, s: State, t: State, n: Id)
    requires Inv(g, o, s) && Inv(g, o, t) && Extends(s, t)
    requires n in g && ScanNode(g, s, n) == Missing
    ensures ScanNode(g, t, n) == Missing
  {
    ScanKeeps(s, t, g[n].deps);
    ScanMet(t, g[n].deps);
    assert NodeOk(g, o, t, n);
  }

  /** When it raises: exactly when, at the end of any maximal run of the same nodes, some node looks up a
      missing dependency, all those before it being completed.  Nothing depends on which rounds came
      first. */
  lemma LoopRaises(g: Graph, o: Oracle, es: seq<Event>, order: seq<Id>, exit: Exit, es': seq<Event>)
    requires Lists(order, g)
    requires IsRun(g, o, Init(g), es) && ExitFits(g, After(g, o, Init(g), es), order, exit)
    requires IsRun(g, o, Init(g), es') && IsTerminal(g, After(g, o, Init(g), es'))
    ensures exit.Raised? <==> Raises(g, After(g, o, Init(g), es'), order)
  {
    var s, t := After(g, o, Init(g), es), After(g, o, Init(g), es');
    InitInv(g, o);
    RunInv(g, o, Init(g), es);
    RunInv(g, o, Init(g), es');
    if exit.Raised? {
      RunAgrees(g, o, Init(g), es, t);
      var n :| n in order && n in g && n in s && ScanNode(g, s, n) == Missing;
      RaisingKeeps(g, o, s, t, n);
    } else {
      assert IsTerminal(g, s);
      Confluence(g, o, es, es');
    }
  }

  // ---------- Two workflows that never end ----------

  function Ring(): Graph {
    map["a" := Task(["b"], 3), "b" := Task(["a"], 3)]
  }

  function AlwaysSucceeds(): Oracle {
    (n, k) => true
  }

  /** Two nodes that wait for each other: nothing is missing and nothing could fail, and yet the loop
      waits from the start. */
  lemma RingSpins()
    ensures Closed(Ring()) && NeededSucceed(Ring(), AlwaysSucceeds())
    ensures ExitFits(Ring(), Init(Ring()), ["a", "b"], Spins)
  {
    forall n | n in Ring() ensures SomeAttemptSucceeds(Ring(), AlwaysSucceeds(), n) {
      assert AlwaysSucceeds()(n, 0);
    }
    var s := Init(Ring());
    forall n | n in s ensures !IsReady(Ring(), s, n) {
      var d := Ring()[n].deps[0];
      assert s[d].status == Pending;
    }
    assert s["a"].status == Pending;
    ClosedNeverRaises(Ring(), s, ["a", "b"]);
  }

  /** A workflow as `create_workflow` makes it. */
  function FiveNodes(): Graph {
    map["a" := Task([], 3), "b" := Task(["a"], 3), "c" := Task(["b"], 3), "d" := Task(["c"], 3), "e" := Task(["d"], 3)]
  }

  function FirstFails(): Oracle {
    (n, k) => n != "a"
  }

  /** What its first node leaves behind after three failures. */
  function FirstFailed(): State {
    Init(FiveNodes())["a" := NodeState(Failed, 3)]
  }

  lemma FirstFailedIsStuck()
    ensures ExitFits(FiveNodes(), FirstFailed(), ["a", "b", "c", "d", "e"], Spins)
  {
    var g, s := FiveNodes(), FirstFailed();
    forall n | n in s ensures !IsReady(g, s, n) && s[n].status != Running {
      if n != "a" {
        var d := g[n].deps[0];
        assert d in s && s[d].status != Completed;
      }
    }
    assert s["b"].status == Pending;
    ClosedNeverRaises(g, s, ["a", "b", "c", "d", "e"]);
  }

  /** Its first node fails three times, and the loop waits for the others for ever. */
  lemma FirstFailsSpins()
    ensures var es := [Attempt("a"), Attempt("a"), Attempt("a")];
            && IsRun(FiveNodes(), FirstFails(), Init(FiveNodes()), es)
            && ExitFits(FiveNodes(), After(FiveNodes(), FirstFails(), Init(FiveNodes()), es),
                        ["a", "b", "c", "d", "e"], Spins)
  {
    var g, o, e := FiveNodes(), FirstFails(), Attempt("a");
    var s0 := Init(g);
    var s1 := s0["a" := NodeState(Pending, 1)];
    var s2 := s0["a" := NodeState(Pending, 2)];
    OneFailure(g, s0, 0);
    OneFailure(g, s1, 1);
    OneFailure(g, s2, 2);
    assert s1["a" := NodeState(Pending, 2)] == s2 && s2["a" := NodeState(Failed, 3)] == FirstFailed();
    RunCons(g, o, s2, e, []);
    RunCons(g, o, s1, e, [e]);
    RunCons(g, o, s0, e, [e, e]);
    assert [e] + [] == [e] && [e] + [e] == [e, e] && [e] + [e, e] == [e, e, e];
    FirstFailedIsStuck();
  }

  lemma OneFailure(g: Graph, s: State, k: nat)
    requires "a" in g && g["a"] == Task([], 3) && "a" in s && s["a"] == NodeState(Pending, k) && k < 3
    ensures Enabled(g, s, Attempt("a"))
    ensures Apply(g, FirstFails(), s, Attempt("a")) == s["a" := NodeState(if k < 2 then Pending else Failed, k + 1)]
  {
  }

  lemma ChainLink(g: Graph, order: seq<Id>, n: Id, d: Id) returns (i: nat)
    requires IsChain(g, order) && n in g && d in g[n].deps
    ensures 0 < i < |order| && order[i] == n && order[i - 1] == d && d in g
  {
    i :| 0 <= i < |order| && order[i] == n;
    assert g[order[i]].deps == if i == 0 then [] else [order[i - 1]];
    assert order[i - 1] in order;
  }

  /** The position of each of the first `k` tasks. */
  ghost function Ranks(order: seq<Id>, k: nat): (rank: map<Id, nat>)
    requires NoDup(order) && k <= |order|
    ensures IsRanking(order, k, rank)
  {
    if k == 0 then map[] else Ranks(order, k - 1)[order[k - 1] := k - 1]
  }

  predicate IsRanking(order: seq<Id>, k: nat, rank: map<Id, nat>)
    requires k <= |order|
  {
    forall i | 0 <= i < k :: order[i] in rank && rank[order[i]] == i
  }

  lemma ChainDescends(g: Graph, order: seq<Id>, rank: map<Id, nat>, n: Id, d: Id)
    requires IsChain(g, order) && IsRanking(order, |order|, rank) && n in g && d in g[n].deps
    ensures d in g && d in rank && n in rank && rank[d] < rank[n]
  {
  }

  lemma ChainRanked(g: Graph, order: seq<Id>, rank: map<Id, nat>)
    requires IsChain(g, order) && IsRanking(order, |order|, rank)
    ensures g.Keys <= rank.Keys
  {
  }

  lemma ChainWellFormed(g: Graph, order: seq<Id>)
    requires IsChain(g, order)
    ensures Acyclic(g) && Closed(g)
  {
    var rank := Ranks(order, |order|);
    ChainRanked(g, order, rank);
    forall n, d | n in g && d in g[n].deps ensures d in g && rank[d] < rank[n] {
      ChainDescends(g, order, rank, n, d);
    }
    assert Descends(g, rank);
  }

  lemma ChainNeeds(g: Graph, o: Oracle, order: seq<Id>)
    requires IsChain(g, order)
    ensures NeededSucceed(g, o) <==> forall i | 0 <= i < |order| - 1 :: SomeAttemptSucceeds(g, o, order[i])
  {
    if NeededSucceed(g, o) {
      forall i | 0 <= i < |order| - 1 ensures SomeAttemptSucceeds(g, o, order[i]) {
        assert order[i] in g[order[i + 1]].deps;
      }
    } else {
      var n, d :| n in g && d in g[n].deps && !(d in g && SomeAttemptSucceeds(g, o, d));
      var i := ChainLink(g, order, n, d);
      assert !SomeAttemptSucceeds(g, o, order[i - 1]);
    }
  }

  /** A workflow created from a task, which is a chain, is left waiting for ever as soon as any node but
      the last one exhausts its attempts. */
  lemma ChainExits(g: Graph, o: Oracle, es: seq<Event>, order: seq<Id>, exit: Exit)
    requires IsChain(g, order)
    requires IsRun(g, o, Init(g), es) && ExitFits(g, After(g, o, Init(g), es), order, exit)
    ensures exit.Finished? || exit.Spins?
    ensures exit.Spins? <==> exists i :: 0 <= i < |order| - 1 && !SomeAttemptSucceeds(g, o, order[i])
  {
    ChainWellFormed(g, order);
    LoopExits(g, o, es, order, exit);
    ChainNeeds(g, o, order);
  }
}
