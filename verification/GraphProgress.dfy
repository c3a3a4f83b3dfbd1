// What one tick achieves, when a graph stalls, and that it completes when nothing fails.
module GraphProgress {
  import opened Common
  import opened Dag
  import opened Graph
  import opened GraphSafety

  // ---------- order of finishing ----------

  lemma SettledDone(n: GraphNode, env: TickEnv, reviewIterations: bool)
    requires Settle(n, env, reviewIterations).status.Done?
    ensures n.status.Done? || n.status.Running?
  {
  }

  lemma DoneById(nodes: seq<GraphNode>, i: nat)
    requires DistinctNodeIds(nodes) && i < |nodes| && nodes[i].id in DoneIds(nodes)
    ensures nodes[i].status.Done?
  {
    var j := DoneNode(nodes, nodes[i].id);
  }

  /** Accepting turns a node done only when the verdict fits it. */
  lemma AcceptedDone(w: World, ws: WsId, runs: Runs, merges: Id -> MergeOutcome, i: nat)
    requires AcceptFits(w, ws, runs) && i < |w.nodes| && !w.nodes[i].status.Done?
    requires Accept(w, ws, runs, merges).nodes[i].status.Done?
    ensures DepsIn(w.nodes[i], DoneIds(w.nodes))
  {
    assert w.nodes[i] in w.nodes;
  }

  /** Apart from the tick and accepting, no step turns a node done that never had a workspace. */
  lemma OtherStepsDone(w: World, s: Step, i: nat)
    requires !s.Tick? && !s.AcceptedRun? && !UnderReview(w) && i < |w.nodes|
    requires w.nodes[i].status.Pending? && w.nodes[i].workspace.None?
    ensures |Next(w, s).nodes| == |w.nodes| && !Next(w, s).nodes[i].status.Done?
  {
    assert w.nodes[i] in w.nodes;
  }

  lemma NeverLaunched(w: World, i: nat)
    requires Inv(w) && i < |w.nodes|
    ensures DepsIn(w.nodes[i], DoneIds(w.nodes)) || (w.nodes[i].status.Pending? && w.nodes[i].workspace.None?)
    ensures !UnderReview(w)
  {
    assert NodeInv(w.nodes[i], w.useWorktrees, DoneIds(w.nodes), w.base);
  }

  /** A node that turns done in a step had all its dependencies done before the step. */
  lemma FinishesAfterDeps(w: World, s: Step, i: nat)
    requires Inv(w) && StepOk(w, s)
    requires i < |w.nodes| && |Next(w, s).nodes| == |w.nodes|
    requires Next(w, s).nodes[i].status.Done? && !w.nodes[i].status.Done?
    ensures DepsIn(w.nodes[i], DoneIds(w.nodes))
  {
    NeverLaunched(w, i);
    hide Inv, DepsIn, DoneIds, TickRunning;
    if w.nodes[i].status.Pending? && w.nodes[i].workspace.None? {
      if s.Tick? {
        if w.status.Running? {
          TickDone(w, s.env, i);
        }
      } else if s.AcceptedRun? {
        AcceptedDone(w, s.ws, s.runs, s.merges, i);
      } else {
        OtherStepsDone(w, s, i);
      }
    }
  }

  lemma {:induction false} RunPrefix(w: World, steps: seq<Step>, k: nat)
    requires steps != [] && k < |steps|
    ensures RunSteps(w, steps[..k + 1]) == RunSteps(Next(w, steps[0]), steps[1..][..k])
  {
    assert steps[..k + 1][1..] == steps[1..][..k];
  }

  /** Over any run, nodes finish in a topological order: a node that has turned done did so in some
      step before which all its dependencies were done already. */
  lemma {:induction false} FinishesInOrder(w: World, steps: seq<Step>, i: nat) returns (k: nat)
    requires Inv(w) && StepsOk(w, steps) && i < |w.nodes| && !w.nodes[i].status.Done?
    requires i < |RunSteps(w, steps).nodes| && RunSteps(w, steps).nodes[i].status.Done?
    ensures k < |steps|
    ensures var before, after := RunSteps(w, steps[..k]), RunSteps(w, steps[..k + 1]);
            && |before.nodes| == |after.nodes| == |w.nodes|
            && !before.nodes[i].status.Done? && after.nodes[i].status.Done?
            && DepsIn(w.nodes[i], DoneIds(before.nodes))
    decreases |steps|
  {
    hide Inv, DepsIn, DoneIds, Next, StepOk;
    var next := Next(w, steps[0]);
    StepInv(w, steps[0]);
    StepShape(w, next, i);
    assert steps[..0] == [] && RunSteps(w, []) == w;
    RunPrefix(w, steps, 0);
    if next.nodes[i].status.Done? {
      FinishesAfterDeps(w, steps[0], i);
      assert steps[1..][..0] == [] && RunSteps(next, []) == next;
      k := 0;
    } else {
      var j := FinishesInOrder(next, steps[1..], i);
      RunPrefix(w, steps, j);
      RunPrefix(w, steps, j + 1);
      SameDepsIn(w.nodes[i], next.nodes[i], DoneIds(RunSteps(next, steps[1..][..j]).nodes));
      k := j + 1;
    }
  }

  lemma StepShape(w: World, v: World, i: nat)
    requires Evolves(w, v) && i < |w.nodes|
    ensures |v.nodes| == |w.nodes| && v.nodes[i].deps == w.nodes[i].deps
  {
  }

  lemma SameDepsIn(a: GraphNode, b: GraphNode, done: set<Id>)
    requires a.deps == b.deps
    ensures DepsIn(a, done) == DepsIn(b, done)
  {
  }

  lemma SameIds(w: World, v: World, i: nat)
    requires Evolves(w, v) && i < |w.nodes|
    ensures |v.nodes| == |w.nodes| && v.nodes[i].id == w.nodes[i].id
  {
  }

  /** Launching makes no node done. */
  lemma LaunchedDone(w: World, env: TickEnv, i: nat)
    requires Inv(w) && w.status.Running? && EnvOk(env) && i < |w.nodes|
    ensures |SettleAll(w, env).nodes| == |LaunchReady(SettleAll(w, env), env.launches).nodes| == |w.nodes|
    ensures LaunchReady(SettleAll(w, env), env.launches).nodes[i].status.Done? ==> SettleAll(w, env).nodes[i].status.Done?
  {
    hide Inv, Evolves, LaunchReady;
    var settled := SettleAll(w, env);
    var launched := LaunchReady(settled, env.launches);
    SettleInv(w, env);
    SameIds(w, settled, i);
    LaunchedInv(w, env);
    SameIds(w, launched, i);
    if launched.nodes[i].status.Done? {
      assert launched.nodes[i] in launched.nodes;
      InvDistinct(settled);
      DoneById(settled.nodes, i);
    }
  }

  lemma TickDone(w: World, env: TickEnv, i: nat)
    requires Inv(w) && w.status.Running? && EnvOk(env) && i < |w.nodes|
    requires |TickRunning(w, env).nodes| == |w.nodes| && TickRunning(w, env).nodes[i].status.Done?
    ensures w.nodes[i].status.Done? || w.nodes[i].status.Running?
  {
    hide Inv, LaunchReady;
    LaunchedDone(w, env, i);
    assert SettleAll(w, env).nodes[i].status.Done?;
    SettledDone(w.nodes[i], env, w.reviewIterations);
  }

  lemma InvDistinct(w: World)
    requires Inv(w)
    ensures PlanInv(w.nodes)
  {
  }

  // ---------- work conservation ----------

  predicate AnyReady(nodes: seq<GraphNode>, done: set<Id>) {
    exists i :: 0 <= i < |nodes| && IsReady(nodes[i], done)
  }

  predicate AnyActive(nodes: seq<GraphNode>) {
    exists i :: 0 <= i < |nodes| && IsActive(nodes[i])
  }

  predicate AnyPending(nodes: seq<GraphNode>) {
    exists i :: 0 <= i < |nodes| && nodes[i].status.Pending?
  }

  predicate AllDone(nodes: seq<GraphNode>) {
    forall i :: 0 <= i < |nodes| ==> nodes[i].status.Done?
  }

  /** The launch loop stops only with the cap filled or no ready node left. */
  lemma {:induction false} LaunchFromConserves(w: World, k: nat, slots: nat, done: set<Id>, launches: Id -> LaunchOutcome)
    returns (v: World)
    requires k <= |w.nodes| && slots == FreeSlots(w)
    requires forall i :: 0 <= i < k ==> !IsReady(w.nodes[i], done)
    ensures v == LaunchFrom(w, k, slots, done, launches)
    ensures ActiveCount(v.nodes) >= v.maxConcurrency || !AnyReady(v.nodes, done)
    decreases |w.nodes| - k
  {
    if k == |w.nodes| || slots == 0 {
      v := w;
    } else if !IsReady(w.nodes[k], done) {
      v := LaunchFromConserves(w, k + 1, slots, done, launches);
    } else {
      var outcome := launches(w.nodes[k].id);
      LaunchOneEvolves(w, k, outcome);
      v := LaunchFromConserves(LaunchOne(w, k, outcome), k + 1, if outcome.Started? then slots - 1 else slots, done, launches);
    }
  }

  lemma ActiveExists(nodes: seq<GraphNode>)
    ensures AnyActive(nodes) <==> ActiveCount(nodes) > 0
  {
    if AnyActive(nodes) {
      var i :| 0 <= i < |nodes| && IsActive(nodes[i]);
      assert i in ActiveSet(nodes);
    }
    if ActiveCount(nodes) > 0 {
      var i :| i in ActiveSet(nodes);
    }
  }

  // ---------- stalls ----------

  predicate IsStopped(n: GraphNode) {
    n.status.Blocked? || n.status.Interrupted?
  }

  ghost predicate WaitsOnStopped(nodes: seq<GraphNode>, id: Id)
    requires DistinctNodeIds(nodes)
  {
    exists i :: 0 <= i < |nodes| && IsStopped(nodes[i]) && DependsOn(NodeDeps(nodes), id, nodes[i].id)
  }

  /** With nothing active and nothing ready, following unfinished dependencies from a waiting
      node ends at a stopped one: the dependencies have no cycle to get lost in. */
  lemma {:induction false} PendingWaitsOnStopped(nodes: seq<GraphNode>, rank: map<Id, nat>, i: nat)
    requires PlanInv(nodes) && Ranks(NodeDeps(nodes), rank) && rank.Keys == NodeDeps(nodes).Keys
    requires !AnyActive(nodes) && !AnyReady(nodes, DoneIds(nodes))
    requires i < |nodes| && nodes[i].status.Pending?
    ensures WaitsOnStopped(nodes, nodes[i].id)
    decreases rank[nodes[i].id]
  {
    hide Acyclic;
    var n := nodes[i];
    assert !IsReady(n, DoneIds(nodes));
    var d :| d in n.deps && d !in DoneIds(nodes);
    var j := NodeWithId(nodes, d);
    DependsDirectly(NodeDeps(nodes), n.id, d);
    assert nodes[j] in nodes && !nodes[j].status.Done?;
    if nodes[j].status.Pending? {
      PendingWaitsOnStopped(nodes, rank, j);
      var b :| 0 <= b < |nodes| && IsStopped(nodes[b]) && DependsOn(NodeDeps(nodes), d, nodes[b].id);
      DependsThrough(NodeDeps(nodes), n.id, d, nodes[b].id);
    } else {
      assert !IsActive(nodes[j]);
    }
  }

  lemma NodeWithId(nodes: seq<GraphNode>, id: Id) returns (i: nat)
    requires DistinctNodeIds(nodes) && id in NodeDeps(nodes)
    ensures i < |nodes| && nodes[i].id == id
  {
    i :| 0 <= i < |nodes| && nodes[i].id == id;
  }

  lemma StoppedBelowAll(nodes: seq<GraphNode>)
    requires PlanInv(nodes) && !AnyActive(nodes) && !AnyReady(nodes, DoneIds(nodes))
    ensures forall i :: 0 <= i < |nodes| && nodes[i].status.Pending? ==> WaitsOnStopped(nodes, nodes[i].id)
  {
    AcyclicIsRanked(NodeDeps(nodes));
    var rank :| Ranks(NodeDeps(nodes), rank) && rank.Keys == NodeDeps(nodes).Keys;
    forall i | 0 <= i < |nodes| && nodes[i].status.Pending?
      ensures WaitsOnStopped(nodes, nodes[i].id)
    {
      PendingWaitsOnStopped(nodes, rank, i);
    }
  }

  /** The launch loop's result, before the stall check. */
  lemma LaunchedConserves(w: World, env: TickEnv)
    requires Inv(w) && w.status.Running? && EnvOk(env)
    ensures var v := LaunchReady(SettleAll(w, env), env.launches);
            ActiveCount(v.nodes) == v.maxConcurrency || !AnyReady(v.nodes, DoneIds(v.nodes))
  {
    var settled := SettleAll(w, env);
    LaunchedInv(w, env);
    var v := LaunchFromConserves(settled, 0, FreeSlots(settled), DoneIds(settled.nodes), env.launches);
    InvIsSafe(v);
  }

  lemma StalledMeans(w: World, done: set<Id>)
    ensures Stalled(w, done) <==> (AnyActive(w.nodes) || AnyPending(w.nodes)) && !AnyActive(w.nodes) && !AnyReady(w.nodes, done)
  {
    forall i | 0 <= i < |w.nodes|
      ensures w.nodes[i] in w.nodes
    {
    }
    if exists n <- w.nodes :: IsActive(n) || n.status.Pending? {
      var n :| n in w.nodes && (IsActive(n) || n.status.Pending?);
    }
  }

  /** The verdict of a tick: complete exactly when all is done; paused exactly when something
      still waits and nothing works, and then every waiting node transitively depends on a stopped
      one. Otherwise some node works or none waits. No ready node waits while a slot is free. */
  lemma TickVerdict(w: World, env: TickEnv)
    requires Inv(w) && w.status.Running? && EnvOk(env) && w.nodes != [] && w.maxConcurrency >= 1
    ensures var v := TickRunning(w, env);
            && v.status in {GraphState.Running, GraphState.Complete, GraphState.Paused}
            && (v.status.Complete? <==> AllDone(v.nodes))
            && (v.status.Paused? <==> AnyPending(v.nodes) && !AnyActive(v.nodes))
            && (v.status.Running? ==> AnyActive(v.nodes) || !AnyPending(v.nodes))
            && (ActiveCount(v.nodes) == v.maxConcurrency || !AnyReady(v.nodes, DoneIds(v.nodes)))
            && DistinctNodeIds(v.nodes)
            && (v.status.Paused? ==> forall i :: 0 <= i < |v.nodes| && v.nodes[i].status.Pending? ==>
                                       WaitsOnStopped(v.nodes, v.nodes[i].id))
  {
    TickInv(w, env);
    InvDistinct(TickRunning(w, env));
    hide Inv, Evolves, LaunchReady, SettleAll, PlanInv, WaitsOnStopped;
    var settled, v := SettleAll(w, env), TickRunning(w, env);
    if forall n <- settled.nodes :: n.status.Done? {
      AllSettledDone(settled.nodes);
    } else {
      LaunchedVerdict(w, env);
    }
  }

  lemma AllSettledDone(nodes: seq<GraphNode>)
    requires forall n <- nodes :: n.status.Done?
    ensures AllDone(nodes) && !AnyActive(nodes) && !AnyPending(nodes) && !AnyReady(nodes, DoneIds(nodes))
  {
    assert forall i :: 0 <= i < |nodes| ==> nodes[i] in nodes;
  }

  /** What the stall check sees after the launch loop. */
  lemma LaunchedVerdict(w: World, env: TickEnv)
    requires Inv(w) && w.status.Running? && EnvOk(env) && w.nodes != [] && w.maxConcurrency >= 1
    requires !forall n <- SettleAll(w, env).nodes :: n.status.Done?
    ensures var v := LaunchReady(SettleAll(w, env), env.launches);
            && v.status.Running? && !AllDone(v.nodes) && DistinctNodeIds(v.nodes)
            && (Stalled(v, DoneIds(SettleAll(w, env).nodes)) <==> AnyPending(v.nodes) && !AnyActive(v.nodes))
            && (ActiveCount(v.nodes) == v.maxConcurrency || !AnyReady(v.nodes, DoneIds(v.nodes)))
            && (!AnyActive(v.nodes) ==> forall i :: 0 <= i < |v.nodes| && v.nodes[i].status.Pending? ==>
                                          WaitsOnStopped(v.nodes, v.nodes[i].id))
  {
    hide LaunchReady, SettleAll, WaitsOnStopped;
    var settled := SettleAll(w, env);
    var v := LaunchReady(settled, env.launches);
    LaunchedInv(w, env);
    InvDistinct(v);
    CapKept(w, v);
    LaunchedConserves(w, env);
    NotAllDone(w, env);
    hide Inv, Evolves, PlanInv;
    ActiveExists(v.nodes);
    StalledMeans(v, DoneIds(settled.nodes));
    PlanIsDistinct(v.nodes);
    if !AnyActive(v.nodes) {
      StoppedBelowAll(v.nodes);
    }
  }

  lemma PlanIsDistinct(nodes: seq<GraphNode>)
    requires PlanInv(nodes)
    ensures DistinctNodeIds(nodes)
  {
  }

  lemma CapKept(w: World, v: World)
    requires Evolves(w, v)
    ensures v.maxConcurrency == w.maxConcurrency
  {
  }

  lemma NotAllDone(w: World, env: TickEnv)
    requires Inv(w) && w.status.Running? && EnvOk(env)
    requires !forall n <- SettleAll(w, env).nodes :: n.status.Done?
    ensures !AllDone(LaunchReady(SettleAll(w, env), env.launches).nodes)
  {
    hide LaunchReady, Inv;
    var settled := SettleAll(w, env);
    var n :| n in settled.nodes && !n.status.Done?;
    var i :| 0 <= i < |settled.nodes| && settled.nodes[i] == n;
    LaunchedDone(w, env, i);
  }
}
