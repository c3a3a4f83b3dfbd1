// What every step of a goal graph keeps, and what that means over whole runs.
module GraphSafety {
  import opened Common
  import opened Dag
  import opened Proposal
  import opened Graph

  // ---------- the invariant ----------

  function NodeIds(nodes: seq<GraphNode>): set<Id> {
    set n | n in nodes :: n.id
  }

  /** The dependencies of the node with the given id. */
  function DepsAt(nodes: seq<GraphNode>, id: Id): (deps: seq<Id>)
    requires id in NodeIds(nodes)
    ensures exists i :: 0 <= i < |nodes| && nodes[i].id == id && nodes[i].deps == deps
  {
    if nodes[0].id == id then nodes[0].deps
    else
      assert id in NodeIds(nodes[1..]) by {
        var n :| n in nodes && n.id == id;
        assert n in nodes[1..];
      }
      DepsAt(nodes[1..], id)
  }

  ghost function NodeDeps(nodes: seq<GraphNode>): (deps: DepMap)
    requires DistinctNodeIds(nodes)
    ensures forall id :: id in deps <==> exists i :: 0 <= i < |nodes| && nodes[i].id == id
    ensures forall i :: 0 <= i < |nodes| ==> nodes[i].id in deps && deps[nodes[i].id] == nodes[i].deps
  {
    map id | id in NodeIds(nodes) :: DepsAt(nodes, id)
  }

  /** What holds of one node, given which nodes are done and merged. */
  ghost predicate NodeInv(n: GraphNode, useWorktrees: bool, done: set<Id>, base: set<Id>) {
    && (!n.status.Pending? || n.workspace.Some? ==> DepsIn(n, done))
    && (n.status.Done? ==> n.iteration >= 1 && (useWorktrees ==> n.id in base))
    && (n.status.Review? ==> n.workspace.Some?)
    && (RetriesMerge(n) ==> n.iteration >= 1 && (useWorktrees ==> HasWorktree(n)))
    && (n.workspace.Some? && useWorktrees ==> HasWorktree(n))
  }

  /** A launch referred to the final report of every dependency and, with worktrees, branched
      from a base holding the work of everything it transitively depends on. */
  ghost predicate LaunchInv(nodes: seq<GraphNode>, useWorktrees: bool, l: Launch)
    requires DistinctNodeIds(nodes)
  {
    && l.id in NodeDeps(nodes)
    && RefsComplete(nodes, NodeDeps(nodes)[l.id], l.refs)
    && (useWorktrees ==> forall d :: DependsOn(NodeDeps(nodes), l.id, d) ==> d in l.base)
  }

  /** Exactly one reference per dependency, in order, each to the dependency's final iteration. */
  ghost predicate RefsComplete(nodes: seq<GraphNode>, deps: seq<Id>, refs: seq<(Id, nat)>) {
    && |refs| == |deps|
    && forall k :: 0 <= k < |refs| ==> refs[k].0 == deps[k] && FinalReport(nodes, refs[k])
  }

  ghost predicate FinalReport(nodes: seq<GraphNode>, ref: (Id, nat)) {
    ref.1 >= 1 && exists i :: 0 <= i < |nodes| && nodes[i].id == ref.0 && nodes[i].status.Done? && nodes[i].iteration == ref.1
  }

  ghost predicate PlanInv(nodes: seq<GraphNode>) {
    DistinctNodeIds(nodes) && Closed(NodeDeps(nodes)) && Acyclic(NodeDeps(nodes))
  }

  ghost predicate NodesInv(nodes: seq<GraphNode>, useWorktrees: bool, done: set<Id>, base: set<Id>) {
    forall i {:trigger NodeInv(nodes[i], useWorktrees, done, base)} :: 0 <= i < |nodes| ==>
      NodeInv(nodes[i], useWorktrees, done, base)
  }

  ghost predicate LaunchesInv(nodes: seq<GraphNode>, useWorktrees: bool, launches: seq<Launch>)
    requires DistinctNodeIds(nodes)
  {
    forall k {:trigger LaunchInv(nodes, useWorktrees, launches[k])} :: 0 <= k < |launches| ==>
      LaunchInv(nodes, useWorktrees, launches[k])
  }

  ghost predicate Inv(w: World) {
    && PlanInv(w.nodes)
    && (UnderReview(w) ==> w.nodes == [])
    && NodesInv(w.nodes, w.useWorktrees, DoneIds(w.nodes), w.base)
    && ActiveCount(w.nodes) <= w.maxConcurrency
    && LaunchesInv(w.nodes, w.useWorktrees, w.launches)
  }

  /** A graph as it is created: no plan, nothing merged, nothing launched. */
  function Created(name: string, maxConcurrency: nat, review: bool, reviewIterations: bool, useWorktrees: bool): World {
    World(name, maxConcurrency, review, reviewIterations, useWorktrees, GraphState.Proposing, [], {}, [])
  }

  lemma CreatedInv(name: string, maxConcurrency: nat, review: bool, reviewIterations: bool, useWorktrees: bool)
    ensures Inv(Created(name, maxConcurrency, review, reviewIterations, useWorktrees))
  {
    RankedIsAcyclic(NodeDeps([]), map[]);
  }

  // ---------- what the surroundings may answer ----------

  ghost predicate RunsOk(runs: Runs) {
    forall ws <- runs :: runs[ws].iteration >= 1
  }

  /** No launch error reads like a merge block: the launcher's messages all start otherwise. */
  ghost predicate LaunchesOk(launches: Id -> LaunchOutcome) {
    forall id :: launches(id).Failed? ==> !("merge" <= launches(id).error)
  }

  ghost predicate EnvOk(env: TickEnv) {
    RunsOk(env.runs) && RunsOk(env.finishRuns) && LaunchesOk(env.launches)
  }

  /** The human verdict fits the node its run names: the node is done already, or it waits for no
      dependency, has a report, and leaves its work in the base where worktrees are used. */
  predicate AcceptFits(w: World, ws: WsId, runs: Runs) {
    forall n <- w.nodes :: LinkedNode(w, ws, runs) == Some(n.id) && !n.status.Done? ==>
      && DepsIn(n, DoneIds(w.nodes)) && FinishIteration(n, runs) >= 1
      && (w.useWorktrees ==> HasWorktree(n) || n.id in w.base)
  }

  /** The verdict is about the run the node currently has. */
  ghost predicate OwnRun(w: World, ws: WsId, runs: Runs) {
    forall n <- w.nodes :: LinkedNode(w, ws, runs) == Some(n.id) ==> n.workspace == Some(ws)
  }

  ghost predicate StepOk(w: World, s: Step) {
    match s
    case Tick(env) => EnvOk(env)
    case AskedResume(runs, _) => RunsOk(runs)
    case AcceptedRun(ws, runs, _) => AcceptFits(w, ws, runs)
    case _ => true
  }

  // ---------- steps that change each node on its own ----------

  ghost predicate SameShape(a: seq<GraphNode>, b: seq<GraphNode>) {
    |a| == |b| && forall i :: 0 <= i < |a| ==> a[i].id == b[i].id && a[i].deps == b[i].deps
  }

  /** A node that is done stays exactly as it is. */
  ghost predicate DoneKept(a: seq<GraphNode>, b: seq<GraphNode>) {
    |a| == |b| && forall i :: 0 <= i < |a| && a[i].status.Done? ==> b[i] == a[i]
  }

  lemma SameShapeDistinct(a: seq<GraphNode>, b: seq<GraphNode>)
    requires SameShape(a, b) && DistinctNodeIds(a)
    ensures DistinctNodeIds(b)
  {
    forall i, j | 0 <= i < j < |b|
      ensures b[i].id != b[j].id
    {
      assert a[i].id == b[i].id && a[j].id == b[j].id;
    }
  }

  lemma SameShapeSameDeps(a: seq<GraphNode>, b: seq<GraphNode>)
    requires SameShape(a, b) && DistinctNodeIds(a)
    ensures DistinctNodeIds(b) && NodeDeps(b) == NodeDeps(a)
  {
    SameShapeDistinct(a, b);
    hide DistinctNodeIds;
    var da, db := NodeDeps(a), NodeDeps(b);
    forall id | id in da || id in db
      ensures id in da && id in db && da[id] == db[id]
    {
      var i :| 0 <= i < |a| && (a[i].id == id || b[i].id == id);
      assert a[i].id == b[i].id && a[i].deps == b[i].deps;
    }
  }

  lemma DoneGrows(a: seq<GraphNode>, b: seq<GraphNode>)
    requires DoneKept(a, b)
    ensures DoneIds(a) <= DoneIds(b)
  {
    forall id | id in DoneIds(a)
      ensures id in DoneIds(b)
    {
      var i :| 0 <= i < |a| && a[i].id == id && a[i].status.Done?;
      assert b[i] in b;
    }
  }

  lemma LaunchKept(a: seq<GraphNode>, b: seq<GraphNode>, useWorktrees: bool, l: Launch)
    requires SameShape(a, b) && DoneKept(a, b) && DistinctNodeIds(a) && LaunchInv(a, useWorktrees, l)
    ensures DistinctNodeIds(b) && LaunchInv(b, useWorktrees, l)
  {
    SameShapeSameDeps(a, b);
    forall k | 0 <= k < |l.refs|
      ensures FinalReport(b, l.refs[k])
    {
      assert FinalReport(a, l.refs[k]);
      var i :| 0 <= i < |a| && a[i].id == l.refs[k].0 && a[i].status.Done? && a[i].iteration == l.refs[k].1;
      assert b[i] == a[i];
    }
  }

  /** The frame shared by all steps after the plan is set. */
  ghost predicate Evolves(w: World, v: World) {
    && SameShape(w.nodes, v.nodes) && DoneKept(w.nodes, v.nodes) && w.base <= v.base
    && v.name == w.name && v.maxConcurrency == w.maxConcurrency && v.useWorktrees == w.useWorktrees
    && v.review == w.review && v.reviewIterations == w.reviewIterations
    && w.launches <= v.launches
  }

  lemma NodesInvGrows(nodes: seq<GraphNode>, useWorktrees: bool, done: set<Id>, done': set<Id>, base: set<Id>, base': set<Id>)
    requires NodesInv(nodes, useWorktrees, done, base) && done <= done' && base <= base'
    ensures NodesInv(nodes, useWorktrees, done', base')
  {
    forall i | 0 <= i < |nodes|
      ensures NodeInv(nodes[i], useWorktrees, done', base')
    {
      assert NodeInv(nodes[i], useWorktrees, done, base);
    }
  }

  lemma LaunchesKept(a: seq<GraphNode>, b: seq<GraphNode>, useWorktrees: bool, launches: seq<Launch>)
    requires SameShape(a, b) && DoneKept(a, b) && DistinctNodeIds(a) && LaunchesInv(a, useWorktrees, launches)
    ensures DistinctNodeIds(b) && LaunchesInv(b, useWorktrees, launches)
  {
    SameShapeSameDeps(a, b);
    forall k | 0 <= k < |launches|
      ensures LaunchInv(b, useWorktrees, launches[k])
    {
      assert LaunchInv(a, useWorktrees, launches[k]);
      LaunchKept(a, b, useWorktrees, launches[k]);
    }
  }

  /** No node was activated. */
  ghost predicate NoneActivated(a: seq<GraphNode>, b: seq<GraphNode>) {
    |a| == |b| && forall i :: 0 <= i < |a| && IsActive(b[i]) ==> IsActive(a[i])
  }

  lemma FewerActive(a: seq<GraphNode>, b: seq<GraphNode>)
    requires NoneActivated(a, b)
    ensures ActiveCount(b) <= ActiveCount(a)
  {
    SubsetCardinality(ActiveSet(b), ActiveSet(a));
  }

  /** A step that keeps each node's own invariant and activates none keeps the whole. */
  lemma PointwiseInv(w: World, v: World)
    requires Inv(w) && Evolves(w, v) && v.launches == w.launches
    requires UnderReview(v) ==> v.nodes == []
    requires NodesInv(v.nodes, w.useWorktrees, DoneIds(w.nodes), v.base)
    requires NoneActivated(w.nodes, v.nodes)
    ensures Inv(v)
  {
    SameShapeSameDeps(w.nodes, v.nodes);
    DoneGrows(w.nodes, v.nodes);
    NodesInvGrows(v.nodes, w.useWorktrees, DoneIds(w.nodes), DoneIds(v.nodes), v.base, v.base);
    FewerActive(w.nodes, v.nodes);
    LaunchesKept(w.nodes, v.nodes, w.useWorktrees, w.launches);
  }

  /** Finishing a node whose dependencies are done keeps its invariant, merge or no merge. */
  lemma FinishNodeInv(n: GraphNode, runs: Runs, outcome: MergeOutcome, useWorktrees: bool, done: set<Id>, base: set<Id>)
    requires DepsIn(n, done) && (useWorktrees ==> HasWorktree(n))
    requires n.iteration >= 1 || (RunsOk(runs) && !RunIsGone(n, runs))
    requires !n.status.Done? && (FinishMerges(n, outcome) ==> n.id in base)
    ensures NodeInv(Finish(n, runs, outcome), useWorktrees, done, base)
  {
  }

  lemma SettleNodeInv(n: GraphNode, env: TickEnv, reviewIterations: bool, useWorktrees: bool, done: set<Id>, base: set<Id>, base': set<Id>)
    requires NodeInv(n, useWorktrees, done, base) && EnvOk(env) && base <= base'
    requires SettleMerges(n, env, reviewIterations) ==> n.id in base'
    ensures NodeInv(Settle(n, env, reviewIterations), useWorktrees, done, base')
  {
    if WantsFinish(n, env.runs, reviewIterations) {
      FinishNodeInv(Sync(n, env.runs, reviewIterations), env.finishRuns, env.merges(n.id), useWorktrees, done, base');
    }
  }

  lemma SettleEvolves(w: World, env: TickEnv)
    ensures Evolves(w, SettleAll(w, env)) && NoneActivated(w.nodes, SettleAll(w, env).nodes)
  {
    var v := SettleAll(w, env);
    forall i | 0 <= i < |w.nodes|
      ensures v.nodes[i].id == w.nodes[i].id && v.nodes[i].deps == w.nodes[i].deps
      ensures w.nodes[i].status.Done? ==> v.nodes[i] == w.nodes[i]
      ensures IsActive(v.nodes[i]) ==> IsActive(w.nodes[i])
    {
    }
  }

  lemma SettleNodes(w: World, env: TickEnv, done: set<Id>)
    requires NodesInv(w.nodes, w.useWorktrees, done, w.base) && EnvOk(env)
    ensures NodesInv(SettleAll(w, env).nodes, w.useWorktrees, done, SettleAll(w, env).base)
  {
    var v := SettleAll(w, env);
    forall i | 0 <= i < |v.nodes|
      ensures NodeInv(v.nodes[i], w.useWorktrees, done, v.base)
    {
      var n := w.nodes[i];
      assert n in w.nodes && NodeInv(n, w.useWorktrees, done, w.base);
      SettleNodeInv(n, env, w.reviewIterations, w.useWorktrees, done, w.base, v.base);
    }
  }

  lemma SettleInv(w: World, env: TickEnv)
    requires Inv(w) && EnvOk(env) && w.status.Running?
    ensures Inv(SettleAll(w, env)) && Evolves(w, SettleAll(w, env))
  {
    SettleEvolves(w, env);
    SettleNodes(w, env, DoneIds(w.nodes));
    PointwiseInv(w, SettleAll(w, env));
  }

  lemma ResumeEvolves(w: World, runs: Runs, merges: Id -> MergeOutcome)
    ensures Evolves(w, Resume(w, runs, merges)) && NoneActivated(w.nodes, Resume(w, runs, merges).nodes)
  {
    var v := Resume(w, runs, merges);
    forall i | 0 <= i < |w.nodes|
      ensures v.nodes[i].id == w.nodes[i].id && v.nodes[i].deps == w.nodes[i].deps
      ensures w.nodes[i].status.Done? ==> v.nodes[i] == w.nodes[i]
      ensures IsActive(v.nodes[i]) ==> IsActive(w.nodes[i])
    {
      assert v.nodes[i] == ResumeNode(w.nodes[i], runs, merges(w.nodes[i].id));
    }
  }

  lemma ResumeNodes(w: World, runs: Runs, merges: Id -> MergeOutcome, done: set<Id>)
    requires NodesInv(w.nodes, w.useWorktrees, done, w.base) && RunsOk(runs)
    ensures NodesInv(Resume(w, runs, merges).nodes, w.useWorktrees, done, Resume(w, runs, merges).base)
  {
    var v := Resume(w, runs, merges);
    forall i | 0 <= i < |v.nodes|
      ensures NodeInv(v.nodes[i], w.useWorktrees, done, v.base)
    {
      var n := w.nodes[i];
      assert n in w.nodes && NodeInv(n, w.useWorktrees, done, w.base);
      assert v.nodes[i] == ResumeNode(n, runs, merges(n.id));
      if RetriesMerge(n) {
        assert FinishMerges(n, merges(n.id)) ==> n.id in v.base;
        FinishNodeInv(n, runs, merges(n.id), w.useWorktrees, done, v.base);
      }
    }
  }

  lemma ResumeInv(w: World, runs: Runs, merges: Id -> MergeOutcome)
    requires Inv(w) && RunsOk(runs)
    ensures Inv(Resume(w, runs, merges)) && Evolves(w, Resume(w, runs, merges))
  {
    ResumeEvolves(w, runs, merges);
    ResumeNodes(w, runs, merges, DoneIds(w.nodes));
    PointwiseInv(w, Resume(w, runs, merges));
  }

  lemma AcceptEvolves(w: World, ws: WsId, runs: Runs, merges: Id -> MergeOutcome)
    ensures Evolves(w, Accept(w, ws, runs, merges)) && NoneActivated(w.nodes, Accept(w, ws, runs, merges).nodes)
  {
    var v := Accept(w, ws, runs, merges);
    forall i | 0 <= i < |w.nodes|
      ensures v.nodes[i].id == w.nodes[i].id && v.nodes[i].deps == w.nodes[i].deps
      ensures w.nodes[i].status.Done? ==> v.nodes[i] == w.nodes[i]
      ensures IsActive(v.nodes[i]) ==> IsActive(w.nodes[i])
    {
    }
  }

  lemma AcceptNodes(w: World, ws: WsId, runs: Runs, merges: Id -> MergeOutcome, done: set<Id>)
    requires NodesInv(w.nodes, w.useWorktrees, done, w.base) && AcceptFits(w, ws, runs) && done == DoneIds(w.nodes)
    ensures NodesInv(Accept(w, ws, runs, merges).nodes, w.useWorktrees, done, Accept(w, ws, runs, merges).base)
  {
    var v := Accept(w, ws, runs, merges);
    forall i | 0 <= i < |v.nodes|
      ensures NodeInv(v.nodes[i], w.useWorktrees, done, v.base)
    {
      var n := w.nodes[i];
      assert n in w.nodes && NodeInv(n, w.useWorktrees, done, w.base);
    }
  }

  lemma AcceptInv(w: World, ws: WsId, runs: Runs, merges: Id -> MergeOutcome)
    requires Inv(w) && AcceptFits(w, ws, runs)
    ensures Inv(Accept(w, ws, runs, merges)) && Evolves(w, Accept(w, ws, runs, merges))
  {
    AcceptEvolves(w, ws, runs, merges);
    AcceptNodes(w, ws, runs, merges, DoneIds(w.nodes));
    PointwiseInv(w, Accept(w, ws, runs, merges));
  }

  /** A verdict on a node's own current run always fits. */
  lemma OwnRunFits(w: World, ws: WsId, runs: Runs)
    requires Inv(w) && RunsOk(runs) && OwnRun(w, ws, runs)
    ensures AcceptFits(w, ws, runs)
  {
    forall n | n in w.nodes && LinkedNode(w, ws, runs) == Some(n.id) && !n.status.Done?
      ensures DepsIn(n, DoneIds(w.nodes)) && FinishIteration(n, runs) >= 1 && (w.useWorktrees ==> HasWorktree(n))
    {
      EachNodeInv(w, n);
      hide Inv, DepsIn, DoneIds, AcceptFits;
    }
  }

  lemma EachNodeInv(w: World, n: GraphNode)
    requires Inv(w) && n in w.nodes
    ensures NodeInv(n, w.useWorktrees, DoneIds(w.nodes), w.base)
  {
    hide PlanInv, LaunchesInv, ActiveCount, NodeInv, DoneIds;
  }

  lemma ContinueEvolves(w: World, ws: WsId, runs: Runs)
    ensures Evolves(w, Continue(w, ws, runs)) && NoneActivated(w.nodes, Continue(w, ws, runs).nodes)
  {
    var v := Continue(w, ws, runs);
    forall i | 0 <= i < |w.nodes|
      ensures v.nodes[i].id == w.nodes[i].id && v.nodes[i].deps == w.nodes[i].deps
      ensures w.nodes[i].status.Done? ==> v.nodes[i] == w.nodes[i]
      ensures IsActive(v.nodes[i]) ==> IsActive(w.nodes[i])
    {
    }
  }

  lemma ContinueNodes(w: World, ws: WsId, runs: Runs, done: set<Id>)
    requires NodesInv(w.nodes, w.useWorktrees, done, w.base)
    ensures NodesInv(Continue(w, ws, runs).nodes, w.useWorktrees, done, Continue(w, ws, runs).base)
  {
    var v := Continue(w, ws, runs);
    forall i | 0 <= i < |v.nodes|
      ensures NodeInv(v.nodes[i], w.useWorktrees, done, v.base)
    {
      var n := w.nodes[i];
      assert n in w.nodes && NodeInv(n, w.useWorktrees, done, w.base);
    }
  }

  lemma ContinueInv(w: World, ws: WsId, runs: Runs)
    requires Inv(w)
    ensures Inv(Continue(w, ws, runs)) && Evolves(w, Continue(w, ws, runs))
  {
    ContinueEvolves(w, ws, runs);
    ContinueNodes(w, ws, runs, DoneIds(w.nodes));
    PointwiseInv(w, Continue(w, ws, runs));
  }

  lemma RestartEvolves(w: World)
    ensures Evolves(w, Restart(w)) && NoneActivated(w.nodes, Restart(w).nodes)
  {
    var v := Restart(w);
    forall i | 0 <= i < |w.nodes|
      ensures v.nodes[i].id == w.nodes[i].id && v.nodes[i].deps == w.nodes[i].deps
      ensures w.nodes[i].status.Done? ==> v.nodes[i] == w.nodes[i]
      ensures IsActive(v.nodes[i]) ==> IsActive(w.nodes[i])
    {
    }
  }

  lemma RestartNodes(w: World, done: set<Id>)
    requires NodesInv(w.nodes, w.useWorktrees, done, w.base)
    ensures NodesInv(Restart(w).nodes, w.useWorktrees, done, Restart(w).base)
  {
    var v := Restart(w);
    forall i | 0 <= i < |v.nodes|
      ensures NodeInv(v.nodes[i], w.useWorktrees, done, v.base)
    {
      var n := w.nodes[i];
      assert n in w.nodes && NodeInv(n, w.useWorktrees, done, w.base);
    }
  }

  lemma RestartInv(w: World)
    requires Inv(w)
    ensures Inv(Restart(w)) && Evolves(w, Restart(w))
  {
    RestartEvolves(w);
    RestartNodes(w, DoneIds(w.nodes));
    PointwiseInv(w, Restart(w));
  }

  // ---------- launching ----------

  lemma {:induction false} NodeAtIndex(nodes: seq<GraphNode>, i: nat)
    requires DistinctNodeIds(nodes) && i < |nodes|
    ensures NodeAt(nodes, nodes[i].id) == Some(nodes[i])
  {
    if i > 0 {
      assert nodes[1..][i - 1] == nodes[i];
      NodeAtIndex(nodes[1..], i - 1);
    }
  }

  lemma DoneNode(nodes: seq<GraphNode>, id: Id) returns (i: nat)
    requires id in DoneIds(nodes)
    ensures i < |nodes| && nodes[i].id == id && nodes[i].status.Done?
  {
    var n :| n in nodes && n.status.Done? && n.id == id;
    i :| 0 <= i < |nodes| && nodes[i] == n;
  }

  /** With all dependencies done and at iteration 1 or later, none is filtered out. */
  lemma {:induction false} UpstreamComplete(nodes: seq<GraphNode>, useWorktrees: bool, base: set<Id>, deps: seq<Id>)
    requires DistinctNodeIds(nodes) && NodesInv(nodes, useWorktrees, DoneIds(nodes), base)
    requires forall k :: 0 <= k < |deps| ==> deps[k] in DoneIds(nodes)
    ensures RefsComplete(nodes, deps, UpstreamRefs(nodes, deps))
  {
    if deps != [] {
      UpstreamComplete(nodes, useWorktrees, base, deps[1..]);
      var i := DoneNode(nodes, deps[0]);
      NodeAtIndex(nodes, i);
      assert NodeInv(nodes[i], useWorktrees, DoneIds(nodes), base);
      var refs, rest := UpstreamRefs(nodes, deps), UpstreamRefs(nodes, deps[1..]);
      assert refs == [(deps[0], nodes[i].iteration)] + rest;
      assert FinalReport(nodes, refs[0]);
      forall k | 0 < k < |refs|
        ensures refs[k].0 == deps[k] && FinalReport(nodes, refs[k])
      {
        assert refs[k] == rest[k - 1];
      }
    }
  }

  /** Everything below done nodes is done. */
  lemma {:induction false} DoneBelow(nodes: seq<GraphNode>, useWorktrees: bool, base: set<Id>, walk: seq<Id>)
    requires DistinctNodeIds(nodes) && NodesInv(nodes, useWorktrees, DoneIds(nodes), base)
    requires IsWalk(NodeDeps(nodes), walk) && walk[0] in DoneIds(nodes)
    ensures walk[|walk| - 1] in DoneIds(nodes)
  {
    if |walk| > 1 {
      var i := DoneNode(nodes, walk[0]);
      assert NodeInv(nodes[i], useWorktrees, DoneIds(nodes), base);
      assert walk[1] in nodes[i].deps;
      DoneBelow(nodes, useWorktrees, base, walk[1..]);
    }
  }

  lemma UpstreamMerged(nodes: seq<GraphNode>, base: set<Id>, n: GraphNode, d: Id)
    requires DistinctNodeIds(nodes) && NodesInv(nodes, true, DoneIds(nodes), base)
    requires n in nodes && DepsIn(n, DoneIds(nodes)) && DependsOn(NodeDeps(nodes), n.id, d)
    ensures d in base
  {
    var walk :| IsWalk(NodeDeps(nodes), walk) && |walk| >= 2 && walk[0] == n.id && walk[|walk| - 1] == d;
    assert walk[1] in NodeDeps(nodes)[walk[0]];
    DoneBelow(nodes, true, base, walk[1..]);
    var i := DoneNode(nodes, d);
    assert NodeInv(nodes[i], true, DoneIds(nodes), base);
  }

  lemma LaunchOneEvolves(w: World, k: nat, outcome: LaunchOutcome)
    requires k < |w.nodes| && w.nodes[k].status.Pending?
    ensures Evolves(w, LaunchOne(w, k, outcome))
    ensures ActiveCount(LaunchOne(w, k, outcome).nodes) == ActiveCount(w.nodes) + (if outcome.Started? then 1 else 0)
    ensures DoneIds(LaunchOne(w, k, outcome).nodes) == DoneIds(w.nodes)
  {
    var v := LaunchOne(w, k, outcome);
    assert ActiveSet(v.nodes) == if outcome.Started? then ActiveSet(w.nodes) + {k} else ActiveSet(w.nodes);
    DoneGrows(w.nodes, v.nodes);
    forall id | id in DoneIds(v.nodes)
      ensures id in DoneIds(w.nodes)
    {
      var i :| 0 <= i < |v.nodes| && v.nodes[i].status.Done? && v.nodes[i].id == id;
      assert w.nodes[i] in w.nodes;
    }
  }

  lemma LaunchOneNodes(w: World, k: nat, outcome: LaunchOutcome, done: set<Id>)
    requires NodesInv(w.nodes, w.useWorktrees, done, w.base)
    requires k < |w.nodes| && IsReady(w.nodes[k], done)
    requires outcome.Failed? ==> !("merge" <= outcome.error)
    ensures NodesInv(LaunchOne(w, k, outcome).nodes, w.useWorktrees, done, w.base)
  {
    var v := LaunchOne(w, k, outcome);
    forall i | 0 <= i < |v.nodes|
      ensures NodeInv(v.nodes[i], w.useWorktrees, done, w.base)
    {
      assert NodeInv(w.nodes[i], w.useWorktrees, done, w.base);
    }
  }

  /** The launch of a ready node finds all its upstream work in place. */
  lemma NewLaunchInv(w: World, n: GraphNode)
    requires Inv(w) && n in w.nodes && DepsIn(n, DoneIds(w.nodes))
    ensures LaunchInv(w.nodes, w.useWorktrees, Launch(n.id, UpstreamRefs(w.nodes, n.deps), w.base))
  {
    UpstreamComplete(w.nodes, w.useWorktrees, w.base, n.deps);
    forall d | w.useWorktrees && DependsOn(NodeDeps(w.nodes), n.id, d)
      ensures d in w.base
    {
      UpstreamMerged(w.nodes, w.base, n, d);
    }
  }

  lemma LaunchOneLog(w: World, k: nat, outcome: LaunchOutcome)
    requires Inv(w) && k < |w.nodes| && IsReady(w.nodes[k], DoneIds(w.nodes))
    ensures LaunchesInv(w.nodes, w.useWorktrees, LaunchOne(w, k, outcome).launches)
  {
    var launches := LaunchOne(w, k, outcome).launches;
    forall i | 0 <= i < |launches|
      ensures LaunchInv(w.nodes, w.useWorktrees, launches[i])
    {
      if i < |w.launches| {
        assert LaunchInv(w.nodes, w.useWorktrees, w.launches[i]);
      } else {
        NewLaunchInv(w, w.nodes[k]);
      }
    }
  }

  lemma LaunchOneInv(w: World, k: nat, outcome: LaunchOutcome)
    requires Inv(w) && !UnderReview(w) && k < |w.nodes| && IsReady(w.nodes[k], DoneIds(w.nodes))
    requires outcome.Started? ==> ActiveCount(w.nodes) < w.maxConcurrency
    requires outcome.Failed? ==> !("merge" <= outcome.error)
    ensures Inv(LaunchOne(w, k, outcome)) && Evolves(w, LaunchOne(w, k, outcome))
  {
    var v := LaunchOne(w, k, outcome);
    LaunchOneEvolves(w, k, outcome);
    LaunchOneNodes(w, k, outcome, DoneIds(w.nodes));
    LaunchOneLog(w, k, outcome);
    SameShapeSameDeps(w.nodes, v.nodes);
    LaunchesKept(w.nodes, v.nodes, w.useWorktrees, v.launches);
  }

  lemma EvolvesTransitive(u: World, v: World, w: World)
    requires Evolves(u, v) && Evolves(v, w)
    ensures Evolves(u, w)
  {
    forall i | 0 <= i < |u.nodes|
      ensures u.nodes[i].id == w.nodes[i].id && u.nodes[i].deps == w.nodes[i].deps
      ensures u.nodes[i].status.Done? ==> w.nodes[i] == u.nodes[i]
    {
      assert v.nodes[i].id == u.nodes[i].id;
    }
  }

  /** What the launch loop keeps: the invariant, the done nodes and the shape. */
  lemma {:induction false} LaunchFromInv(w: World, k: nat, slots: nat, done: set<Id>, launches: Id -> LaunchOutcome)
    returns (v: World)
    requires Inv(w) && !UnderReview(w) && k <= |w.nodes| && LaunchesOk(launches)
    requires slots == FreeSlots(w) && done == DoneIds(w.nodes)
    ensures v == LaunchFrom(w, k, slots, done, launches)
    ensures Inv(v) && Evolves(w, v) && DoneIds(v.nodes) == done && v.status == w.status
    decreases |w.nodes| - k
  {
    hide Inv, Evolves;
    if k == |w.nodes| || slots == 0 {
      EvolvesReflexive(w);
      v := w;
    } else if !IsReady(w.nodes[k], done) {
      v := LaunchFromInv(w, k + 1, slots, done, launches);
    } else {
      var outcome := launches(w.nodes[k].id);
      var next := LaunchOne(w, k, outcome);
      LaunchOneInv(w, k, outcome);
      LaunchOneEvolves(w, k, outcome);
      v := LaunchFromInv(next, k + 1, if outcome.Started? then slots - 1 else slots, done, launches);
      EvolvesTransitive(w, next, v);
    }
  }

  lemma EvolvesReflexive(w: World)
    ensures Evolves(w, w)
  {
  }

  lemma StatusInv(w: World, status: GraphState)
    requires Inv(w) && (UnderReview(w.(status := status)) ==> w.nodes == [])
    ensures Inv(w.(status := status)) && Evolves(w, w.(status := status))
  {
  }

  /** The tick, up to its launch loop and the verdict on it. */
  lemma LaunchedInv(w: World, env: TickEnv)
    requires Inv(w) && w.status.Running? && EnvOk(env)
    ensures var v := LaunchReady(SettleAll(w, env), env.launches);
            Inv(v) && Evolves(w, v) && v.status.Running? && DoneIds(v.nodes) == DoneIds(SettleAll(w, env).nodes)
  {
    var settled := SettleAll(w, env);
    SettleInv(w, env);
    var v := LaunchFromInv(settled, 0, FreeSlots(settled), DoneIds(settled.nodes), env.launches);
    EvolvesTransitive(w, settled, v);
  }

  lemma TickInv(w: World, env: TickEnv)
    requires Inv(w) && w.status.Running? && EnvOk(env)
    ensures Inv(TickRunning(w, env)) && Evolves(w, TickRunning(w, env))
  {
    hide Inv, Evolves;
    if w.nodes == [] {
      StatusInv(w, GraphState.Proposing);
      return;
    }
    var settled := SettleAll(w, env);
    if forall n <- settled.nodes :: n.status.Done? {
      SettleInv(w, env);
      StatusInv(settled, GraphState.Complete);
      EvolvesTransitive(w, settled, settled.(status := GraphState.Complete));
      return;
    }
    LaunchedInv(w, env);
    var launched := LaunchReady(settled, env.launches);
    StatusInv(launched, GraphState.Paused);
    EvolvesTransitive(w, launched, launched.(status := GraphState.Paused));
  }

  // ---------- setting the plan ----------

  lemma PlanIds(plan: seq<ProposalNode>, nodes: seq<GraphNode>, id: Id)
    requires |nodes| == |plan| && forall i :: 0 <= i < |plan| ==> nodes[i] == NewNode(plan[i])
    ensures id in Ids(plan) <==> exists i :: 0 <= i < |nodes| && nodes[i].id == id
  {
    if id in Ids(plan) {
      var p :| p in plan && p.id == id;
      var i :| 0 <= i < |plan| && plan[i] == p;
      assert nodes[i].id == id;
    }
  }

  lemma PlanDeps(plan: seq<ProposalNode>, nodes: seq<GraphNode>)
    requires DistinctIds(plan) && |nodes| == |plan|
    requires forall i :: 0 <= i < |plan| ==> nodes[i] == NewNode(plan[i])
    ensures DistinctNodeIds(nodes) && NodeDeps(nodes) == Deps(plan)
  {
    assert DistinctNodeIds(nodes) by {
      assert forall i :: 0 <= i < |plan| ==> nodes[i].id == plan[i].id;
    }
    var deps := NodeDeps(nodes);
    forall id
      ensures id in deps <==> id in Deps(plan)
      ensures id in deps ==> deps[id] == Deps(plan)[id]
    {
      PlanIds(plan, nodes, id);
      if id in deps {
        var i :| 0 <= i < |nodes| && nodes[i].id == id;
        assert plan[i] in plan;
      }
    }
  }

  lemma StartPlanInv(w: World, plan: seq<ProposalNode>)
    requires Inv(w) && UnderReview(w) && Acceptable(plan)
    ensures Inv(StartPlan(w, plan))
  {
    var v := StartPlan(w, plan);
    PlanDeps(plan, v.nodes);
    PlanIsClosed(plan);
    NothingLaunched(w);
    FreshNodes(plan, v.nodes, w.useWorktrees, DoneIds(v.nodes), w.base);
    assert LaunchesInv(v.nodes, w.useWorktrees, []);
  }

  lemma LaunchNeedsNode(nodes: seq<GraphNode>, useWorktrees: bool, l: Launch)
    requires DistinctNodeIds(nodes) && LaunchInv(nodes, useWorktrees, l)
    ensures nodes != []
  {
  }

  lemma NothingLaunched(w: World)
    requires Inv(w) && w.nodes == []
    ensures w.launches == []
  {
    hide LaunchInv;
    if w.launches != [] {
      LaunchNeedsNode(w.nodes, w.useWorktrees, w.launches[0]);
    }
  }

  lemma FreshNodes(plan: seq<ProposalNode>, nodes: seq<GraphNode>, useWorktrees: bool, done: set<Id>, base: set<Id>)
    requires |nodes| == |plan| && forall i :: 0 <= i < |plan| ==> nodes[i] == NewNode(plan[i])
    ensures NodesInv(nodes, useWorktrees, done, base) && ActiveCount(nodes) == 0
  {
    assert ActiveSet(nodes) == {};
  }

  lemma PlanIsClosed(plan: seq<ProposalNode>)
    requires StaticOk(plan)
    ensures Closed(Deps(plan))
  {
    forall id, d | id in Deps(plan) && d in Deps(plan)[id]
      ensures d in Deps(plan)
    {
      var p :| p in plan && p.id == id;
      assert NodeOk(p, Ids(plan));
    }
  }

  lemma UnplannedHasNoNodes(w: World)
    requires Inv(w) && UnderReview(w)
    ensures w.nodes == []
  {
  }

  // ---------- every step, every run ----------

  lemma StepInv(w: World, s: Step)
    requires Inv(w) && StepOk(w, s)
    ensures Inv(Next(w, s))
    ensures w.nodes != [] ==> Evolves(w, Next(w, s))
  {
    hide Inv, Evolves;
    EvolvesReflexive(w);
    if UnderReview(w) {
      UnplannedHasNoNodes(w);
    }
    match s {
      case FoundPlan(plan) =>
        if w.status.Proposing? && Acceptable(plan) {
          StatusInv(w, GraphState.Proposed);
          StartPlanInv(w, plan);
        }
      case Approved(plan) => if UnderReview(w) && Acceptable(plan) { StartPlanInv(w, plan); }
      case AskedRevision => if UnderReview(w) { StatusInv(w, GraphState.Proposing); }
      case Tick(env) => if w.status.Running? { TickInv(w, env); }
      case AskedPause => StatusInv(w, GraphState.Paused);
      case AskedStop => StatusInv(w, GraphState.Stopped);
      case AskedResume(runs, merges) => ResumeInv(w, runs, merges);
      case AcceptedRun(ws, runs, merges) => AcceptInv(w, ws, runs, merges);
      case ContinuedRun(ws, runs) => ContinueInv(w, ws, runs);
      case Restarted => RestartInv(w);
    }
  }

  /** The world after a run of steps. */
  ghost function RunSteps(w: World, steps: seq<Step>): World
    decreases |steps|
  {
    if steps == [] then w else RunSteps(Next(w, steps[0]), steps[1..])
  }

  ghost predicate StepsOk(w: World, steps: seq<Step>)
    decreases |steps|
  {
    steps == [] || (StepOk(w, steps[0]) && StepsOk(Next(w, steps[0]), steps[1..]))
  }

  /** Over any run from a planned graph, done nodes stay exactly as they finished, launches are
      only added, and merged work stays merged. */
  lemma {:induction false} RunInv(w: World, steps: seq<Step>)
    requires Inv(w) && StepsOk(w, steps)
    ensures Inv(RunSteps(w, steps))
    ensures w.nodes != [] ==> Evolves(w, RunSteps(w, steps))
    decreases |steps|
  {
    hide Inv, Evolves;
    if steps == [] {
      EvolvesReflexive(w);
    } else {
      var next := Next(w, steps[0]);
      StepInv(w, steps[0]);
      RunInv(next, steps[1..]);
      if w.nodes != [] {
        PlanStays(w, next);
        EvolvesTransitive(w, next, RunSteps(w, steps));
      }
    }
  }

  lemma PlanStays(w: World, v: World)
    requires w.nodes != [] && Evolves(w, v)
    ensures v.nodes != []
  {
  }

  /** Dependency safety: whatever has left the waiting state has all its dependencies done. */
  ghost predicate DepSafe(nodes: seq<GraphNode>) {
    forall n <- nodes :: !n.status.Pending? ==> DepsIn(n, DoneIds(nodes))
  }

  lemma InvIsSafe(w: World)
    requires Inv(w)
    ensures DepSafe(w.nodes) && ActiveCount(w.nodes) <= w.maxConcurrency
    ensures LaunchesInv(w.nodes, w.useWorktrees, w.launches)
  {
    forall n | n in w.nodes && !n.status.Pending?
      ensures DepsIn(n, DoneIds(w.nodes))
    {
      var i :| 0 <= i < |w.nodes| && w.nodes[i] == n;
      assert NodeInv(w.nodes[i], w.useWorktrees, DoneIds(w.nodes), w.base);
    }
  }

  /** In every state a created graph can reach: dependency safety, the concurrency cap, and
      complete upstream work behind every launch ever made. */
  lemma ReachableIsSafe(name: string, cap: nat, review: bool, reviewIterations: bool, useWorktrees: bool, steps: seq<Step>)
    requires StepsOk(Created(name, cap, review, reviewIterations, useWorktrees), steps)
    ensures var v := RunSteps(Created(name, cap, review, reviewIterations, useWorktrees), steps);
            && DepSafe(v.nodes)
            && ActiveCount(v.nodes) <= cap
            && DistinctNodeIds(v.nodes) && LaunchesInv(v.nodes, useWorktrees, v.launches)
  {
    var w := Created(name, cap, review, reviewIterations, useWorktrees);
    CreatedInv(name, cap, review, reviewIterations, useWorktrees);
    RunInv(w, steps);
    InvIsSafe(RunSteps(w, steps));
    RunParameters(w, steps);
  }

  lemma {:induction false} RunParameters(w: World, steps: seq<Step>)
    ensures RunSteps(w, steps).maxConcurrency == w.maxConcurrency
    ensures RunSteps(w, steps).useWorktrees == w.useWorktrees
    decreases |steps|
  {
    if steps != [] {
      StepParameters(w, steps[0]);
      RunParameters(Next(w, steps[0]), steps[1..]);
    }
  }

  lemma StepParameters(w: World, s: Step)
    ensures Next(w, s).maxConcurrency == w.maxConcurrency && Next(w, s).useWorktrees == w.useWorktrees
  {
    if s.Tick? && w.nodes != [] {
      var settled := SettleAll(w, s.env);
      LaunchParameters(settled, 0, FreeSlots(settled), DoneIds(settled.nodes), s.env.launches);
    }
  }

  lemma {:induction false} LaunchParameters(w: World, k: nat, slots: nat, done: set<Id>, launches: Id -> LaunchOutcome)
    requires k <= |w.nodes|
    ensures var v := LaunchFrom(w, k, slots, done, launches);
            v.maxConcurrency == w.maxConcurrency && v.useWorktrees == w.useWorktrees
    decreases |w.nodes| - k
  {
    if k < |w.nodes| && slots > 0 {
      if IsReady(w.nodes[k], done) {
        var outcome := launches(w.nodes[k].id);
        LaunchParameters(LaunchOne(w, k, outcome), k + 1, if outcome.Started? then slots - 1 else slots, done, launches);
      } else {
        LaunchParameters(w, k + 1, slots, done, launches);
      }
    }
  }
}
