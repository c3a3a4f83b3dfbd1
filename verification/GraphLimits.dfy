// Where the goal graph's guarantees end: exact conditions and dead ends.
module GraphLimits {
  import opened Common
  import opened Dag
  import opened Proposal
  import opened Graph
  import opened GraphSafety
  import opened GraphProgress
  import opened GraphOutcomes

  // ---------- accepting a run that is not the node's current one ----------

  /** The verdict names a node that still waits for one of its dependencies. */
  predicate NamesUnready(w: World, ws: WsId, runs: Runs) {
    exists n <- w.nodes :: LinkedNode(w, ws, runs) == Some(n.id) && n.status.Pending? && !DepsIn(n, DoneIds(w.nodes))
  }

  ghost predicate NoSelfDep(nodes: seq<GraphNode>) {
    forall n <- nodes :: n.id !in n.deps
  }

  lemma FinishedStays(w: World, id: Id, runs: Runs, outcome: MergeOutcome)
    ensures DoneIds(w.nodes) <= DoneIds(FinishById(w, id, runs, outcome).nodes) <= DoneIds(w.nodes) + {id}
  {
    var v := FinishById(w, id, runs, outcome);
    forall x | x in DoneIds(w.nodes)
      ensures x in DoneIds(v.nodes)
    {
      var i := DoneNode(w.nodes, x);
      assert v.nodes[i] == w.nodes[i] && v.nodes[i] in v.nodes;
    }
    forall x | x in DoneIds(v.nodes)
      ensures x in DoneIds(w.nodes) + {id}
    {
      var i := DoneNode(v.nodes, x);
      assert w.nodes[i] in w.nodes;
    }
  }

  lemma UnreadyAccepted(w: World, ws: WsId, runs: Runs, merges: Id -> MergeOutcome)
    requires DistinctNodeIds(w.nodes) && NoSelfDep(w.nodes) && NamesUnready(w, ws, runs)
    ensures !DepSafe(Accept(w, ws, runs, merges).nodes)
  {
    var id := LinkedNode(w, ws, runs).value;
    var v := Accept(w, ws, runs, merges);
    FinishedStays(w, id, runs, merges(id));
    hide Accept;
    var n :| n in w.nodes && n.id == id && n.status.Pending? && !DepsIn(n, DoneIds(w.nodes));
    var i :| 0 <= i < |w.nodes| && w.nodes[i] == n;
    var d :| d in n.deps && d !in DoneIds(w.nodes);
    assert v.nodes[i] in v.nodes && !v.nodes[i].status.Pending? && d in v.nodes[i].deps;
    assert d !in DoneIds(v.nodes);
  }

  lemma ReadyAccepted(w: World, ws: WsId, runs: Runs, merges: Id -> MergeOutcome)
    requires DistinctNodeIds(w.nodes) && DepSafe(w.nodes) && LinkedNode(w, ws, runs).Some? && !NamesUnready(w, ws, runs)
    ensures DepSafe(Accept(w, ws, runs, merges).nodes)
  {
    var id := LinkedNode(w, ws, runs).value;
    var v := Accept(w, ws, runs, merges);
    FinishedStays(w, id, runs, merges(id));
    forall m | m in v.nodes && !m.status.Pending?
      ensures DepsIn(m, DoneIds(v.nodes))
    {
      var i :| 0 <= i < |v.nodes| && v.nodes[i] == m;
      assert w.nodes[i] in w.nodes && m.deps == w.nodes[i].deps;
    }
  }

  /** Accepting goes by the run's recorded node name, so a leftover run of an earlier graph of the
      same name reaches this graph's node. Dependency safety survives exactly when the named node
      does not still wait for a dependency. */
  lemma AcceptSafeIff(w: World, ws: WsId, runs: Runs, merges: Id -> MergeOutcome)
    requires DistinctNodeIds(w.nodes) && NoSelfDep(w.nodes) && DepSafe(w.nodes)
    ensures DepSafe(Accept(w, ws, runs, merges).nodes) <==> !NamesUnready(w, ws, runs)
  {
    if LinkedNode(w, ws, runs).Some? {
      if NamesUnready(w, ws, runs) {
        UnreadyAccepted(w, ws, runs, merges);
      } else {
        ReadyAccepted(w, ws, runs, merges);
      }
    }
  }

  /** Accepting keeps the invariant behind the safety theorem exactly when the verdict fits the node
      it names. */
  lemma AcceptInvIff(w: World, ws: WsId, runs: Runs, merges: Id -> MergeOutcome)
    requires Inv(w)
    ensures Inv(Accept(w, ws, runs, merges)) <==> AcceptFits(w, ws, runs)
  {
    if AcceptFits(w, ws, runs) {
      AcceptInv(w, ws, runs, merges);
    } else {
      UnfitAccepted(w, ws, runs, merges);
    }
  }

  lemma UnfitAccepted(w: World, ws: WsId, runs: Runs, merges: Id -> MergeOutcome)
    requires Inv(w) && !AcceptFits(w, ws, runs)
    ensures !Inv(Accept(w, ws, runs, merges))
  {
    var n :| n in w.nodes && LinkedNode(w, ws, runs) == Some(n.id) && !n.status.Done? && !Fitting(w, n, runs);
    var i :| 0 <= i < |w.nodes| && w.nodes[i] == n;
    hide *;
    UnfitAt(w, ws, runs, merges, i);
    var v := Accept(w, ws, runs, merges);
    if Inv(v) {
      EachNodeInv(v, v.nodes[i]);
    }
  }

  predicate Fitting(w: World, n: GraphNode, runs: Runs) {
    DepsIn(n, DoneIds(w.nodes)) && FinishIteration(n, runs) >= 1 && (w.useWorktrees ==> HasWorktree(n) || n.id in w.base)
  }

  lemma UnfitAt(w: World, ws: WsId, runs: Runs, merges: Id -> MergeOutcome, i: nat)
    requires Inv(w) && i < |w.nodes| && LinkedNode(w, ws, runs) == Some(w.nodes[i].id)
    requires !w.nodes[i].status.Done? && !Fitting(w, w.nodes[i], runs)
    ensures var v := Accept(w, ws, runs, merges);
            i < |v.nodes| && v.nodes[i] in v.nodes && !NodeInv(v.nodes[i], v.useWorktrees, DoneIds(v.nodes), v.base)
  {
    var n, v := w.nodes[i], Accept(w, ws, runs, merges);
    hide LaunchesInv, ActiveCount, LinkedNode, Finish, FinishIteration, DepsIn, HasWorktree;
    assert |v.nodes| == |w.nodes| && v.nodes[i] == Finish(n, runs, merges(n.id)) && v.useWorktrees == w.useWorktrees;
    FinishedStays(w, n.id, runs, merges(n.id));
    NotItsOwnDep(w.nodes, i);
    AcceptedBase(w, ws, runs, merges, i);
    hide PlanInv, Accept, FinishById, DoneIds, NodeInv, Inv;
    UnfitNode(n, runs, merges(n.id), w.useWorktrees, DoneIds(w.nodes), DoneIds(v.nodes), w.base, v.base);
  }

  lemma UnfitNode(n: GraphNode, runs: Runs, outcome: MergeOutcome, useWorktrees: bool, done: set<Id>, done': set<Id>, base: set<Id>, base': set<Id>)
    requires !n.status.Done? && n.id !in n.deps && done' <= done + {n.id}
    requires n.id in base' ==> n.id in base || HasWorktree(n)
    requires !(DepsIn(n, done) && FinishIteration(n, runs) >= 1 && (useWorktrees ==> HasWorktree(n) || n.id in base))
    ensures !NodeInv(Finish(n, runs, outcome), useWorktrees, done', base')
  {
    var m := Finish(n, runs, outcome);
    if outcome.Conflict? {
      assert "merge" <= "merge conflict: " + outcome.error;
    }
    assert "merge" <= MERGE_WAITING;
    assert m.status.Done? || RetriesMerge(m);
    if DepsIn(m, done') {
      assert DepsIn(n, done);
    }
  }

  lemma NotItsOwnDep(nodes: seq<GraphNode>, i: nat)
    requires PlanInv(nodes) && i < |nodes|
    ensures nodes[i].id !in nodes[i].deps
  {
    var id := nodes[i].id;
    if id in nodes[i].deps {
      assert IsCycle(NodeDeps(nodes), [id, id]);
    }
  }

  lemma AcceptedBase(w: World, ws: WsId, runs: Runs, merges: Id -> MergeOutcome, i: nat)
    requires DistinctNodeIds(w.nodes) && i < |w.nodes|
    ensures w.nodes[i].id in Accept(w, ws, runs, merges).base ==> w.nodes[i].id in w.base || HasWorktree(w.nodes[i])
  {
  }

  /** A leftover run of graph "g" marks the waiting root "a" done without a report: "b" is then ready,
      and its launch would refer to nothing. */
  lemma StaleAcceptLosesReport()
    ensures
      var a := NewNode(ProposalNode("a", "x", []));
      var b := NewNode(ProposalNode("b", "y", ["a"]));
      var w := World("g", 1, true, false, false, GraphState.Running, [a, b], {}, []);
      var runs: Runs := map[7 := RunView(3, GoalStatus.Done, Some(GraphLink("g", "a")))];
      var v := Accept(w, 7, runs, _ => Merged);
      && !NamesUnready(w, 7, runs) && !AcceptFits(w, 7, runs)
      && IsReady(v.nodes[1], DoneIds(v.nodes)) && UpstreamRefs(v.nodes, v.nodes[1].deps) == []
  {
    var a := NewNode(ProposalNode("a", "x", []));
    var b := NewNode(ProposalNode("b", "y", ["a"]));
    var w := World("g", 1, true, false, false, GraphState.Running, [a, b], {}, []);
    var runs: Runs := map[7 := RunView(3, GoalStatus.Done, Some(GraphLink("g", "a")))];
    var v := Accept(w, 7, runs, _ => Merged);
    assert LinkedNode(w, 7, runs) == Some("a") && a in w.nodes;
    assert v.nodes[0] == a.(status := NodeState.Done) && v.nodes[1] == b;
    assert v.nodes[0] in v.nodes && "a" in DoneIds(v.nodes);
    assert NodeAt(v.nodes, "a") == Some(v.nodes[0]);
    assert ["a"][1..] == [] && UpstreamRefs(v.nodes, ["a"]) == [] + UpstreamRefs(v.nodes, []);
  }

  /** A leftover run of graph "g" marks node "b" done although its dependency "a" never ran. */
  lemma StaleAcceptBreaksSafety()
    ensures
      var a := NewNode(ProposalNode("a", "x", []));
      var b := NewNode(ProposalNode("b", "y", ["a"]));
      var w := World("g", 1, true, false, false, GraphState.Running, [a, b], {}, []);
      var runs: Runs := map[7 := RunView(3, GoalStatus.Done, Some(GraphLink("g", "b")))];
      DepSafe(w.nodes) && !DepSafe(Accept(w, 7, runs, _ => Merged).nodes)
  {
    var a := NewNode(ProposalNode("a", "x", []));
    var b := NewNode(ProposalNode("b", "y", ["a"]));
    var w := World("g", 1, true, false, false, GraphState.Running, [a, b], {}, []);
    var runs: Runs := map[7 := RunView(3, GoalStatus.Done, Some(GraphLink("g", "b")))];
    var v := Accept(w, 7, runs, _ => Merged);
    assert LinkedNode(w, 7, runs) == Some("b");
    assert v.nodes[0] == a && v.nodes[1].status.Done? && v.nodes[1].deps == ["a"];
    assert v.nodes[1] in v.nodes && "a" in v.nodes[1].deps;
    assert "a" !in DoneIds(v.nodes);
  }

  // ---------- pausing before there is a plan ----------

  /** Paused, stopped or complete without a plan. */
  predicate Stranded(w: World) {
    w.nodes == [] && (w.status.Paused? || w.status.Stopped? || w.status.Complete?)
  }

  /** A graph paused (or stopped) before its plan is approved never runs again: approving, revising
      and resuming all refuse it, and the scheduler passes it by. */
  lemma {:induction false} StrandedForever(w: World, steps: seq<Step>)
    requires Stranded(w)
    ensures Stranded(RunSteps(w, steps)) && RunSteps(w, steps).launches == w.launches
    decreases |steps|
  {
    if steps != [] {
      assert Stranded(Next(w, steps[0])) && Next(w, steps[0]).launches == w.launches;
      StrandedForever(Next(w, steps[0]), steps[1..]);
    }
  }

  /** With an acceptable plan on disk, a graph without nodes can still get them exactly when it waits
      for a plan, or runs and so falls back to waiting for one. */
  lemma StartsIff(w: World, plan: seq<ProposalNode>, env: TickEnv)
    requires w.nodes == [] && Acceptable(plan)
    ensures (exists steps :: RunSteps(w, steps).nodes != []) <==> UnderReview(w) || w.status.Running?
  {
    if UnderReview(w) {
      StartsNow(w, plan);
      assert RunSteps(w, [Approved(plan)]).nodes != [];
    } else if w.status.Running? {
      var back := Next(w, Tick(env));
      StartsNow(back, plan);
      var steps := [Tick(env), Approved(plan)];
      assert steps[1..] == [Approved(plan)] && RunSteps(w, steps) == RunSteps(back, [Approved(plan)]);
      assert RunSteps(w, steps).nodes != [];
    } else {
      forall steps
        ensures RunSteps(w, steps).nodes == []
      {
        StrandedForever(w, steps);
      }
    }
  }

  lemma StartsNow(w: World, plan: seq<ProposalNode>)
    requires UnderReview(w) && Acceptable(plan)
    ensures RunSteps(w, [Approved(plan)]).nodes != []
  {
    assert [Approved(plan)][1..] == [] && RunSteps(w, [Approved(plan)]) == RunSteps(Next(w, Approved(plan)), []);
  }

  // ---------- resuming a stalled graph ----------

  /** Nothing for a resume to act on: it only re-queues interrupted nodes and retries merges. */
  predicate NothingToResume(nodes: seq<GraphNode>) {
    forall n <- nodes :: !n.status.Interrupted? && !RetriesMerge(n)
  }

  /** The resume finds an interrupted node, or a retried merge that now ends differently. */
  predicate ResumeMoves(nodes: seq<GraphNode>, runs: Runs, merges: Id -> MergeOutcome) {
    exists n <- nodes :: n.status.Interrupted? || (RetriesMerge(n) && Finish(n, runs, merges(n.id)) != n)
  }

  lemma {:induction false} NothingToLaunch(w: World, k: nat, slots: nat, done: set<Id>, launches: Id -> LaunchOutcome)
    requires k <= |w.nodes| && !AnyReady(w.nodes, done)
    ensures LaunchFrom(w, k, slots, done, launches) == w
    decreases |w.nodes| - k
  {
    if k < |w.nodes| && slots > 0 {
      assert !IsReady(w.nodes[k], done);
      NothingToLaunch(w, k + 1, slots, done, launches);
    }
  }

  /** With nothing active there is nothing to sync. */
  lemma NothingToSettle(w: World, env: TickEnv)
    requires !AnyActive(w.nodes)
    ensures SettleAll(w, env) == w
  {
    var v := SettleAll(w, env);
    forall i | 0 <= i < |w.nodes|
      ensures v.nodes[i] == w.nodes[i]
    {
      assert !IsActive(w.nodes[i]);
    }
    assert v.nodes == w.nodes;
    assert forall n <- w.nodes :: !n.status.Running?;
    assert v.base == w.base;
  }

  lemma ResumedNode(w: World, runs: Runs, merges: Id -> MergeOutcome, i: nat)
    requires !AnyActive(w.nodes) && i < |w.nodes|
    ensures !IsActive(ResumeNode(w.nodes[i], runs, merges(w.nodes[i].id)))
  {
    assert !IsActive(w.nodes[i]);
  }

  /** Resuming a graph in which nothing works and nothing is ready gets somewhere by the next tick
      exactly when it finds an interrupted node, or a blocked merge that now ends differently. */
  lemma ResumeMovesIff(w: World, runs: Runs, merges: Id -> MergeOutcome, env: TickEnv)
    requires w.nodes != [] && !AnyActive(w.nodes) && !AnyReady(w.nodes, DoneIds(w.nodes))
    ensures var v := TickRunning(Resume(w, runs, merges), env);
            v.nodes != w.nodes || v.launches != w.launches <==> ResumeMoves(w.nodes, runs, merges)
  {
    var resumed := Resume(w, runs, merges);
    forall i | 0 <= i < |w.nodes|
      ensures !IsActive(resumed.nodes[i])
    {
      ResumedNode(w, runs, merges, i);
    }
    NothingToSettle(resumed, env);
    hide SettleAll, LaunchReady, LaunchFrom, Stalled, AnyActive, AnyReady, DoneIds;
    if ResumeMoves(w.nodes, runs, merges) {
      var n :| n in w.nodes && (n.status.Interrupted? || (RetriesMerge(n) && Finish(n, runs, merges(n.id)) != n));
      var i :| 0 <= i < |w.nodes| && w.nodes[i] == n;
      assert resumed.nodes[i] == ResumeNode(n, runs, merges(n.id)) && resumed.nodes[i] != n;
      MovedStays(resumed, env, i);
      var v := TickRunning(resumed, env);
      assert v.nodes[i] != w.nodes[i];
    } else {
      ResumeIdle(w, runs, merges);
      LaunchIdle(resumed, env);
    }
  }

  lemma ResumeIdle(w: World, runs: Runs, merges: Id -> MergeOutcome)
    requires w.nodes != [] && !ResumeMoves(w.nodes, runs, merges)
    ensures Resume(w, runs, merges).nodes == w.nodes
  {
    forall i | 0 <= i < |w.nodes|
      ensures ResumeNode(w.nodes[i], runs, merges(w.nodes[i].id)) == w.nodes[i]
    {
      assert w.nodes[i] in w.nodes;
    }
  }

  lemma LaunchIdle(w: World, env: TickEnv)
    requires w.nodes != [] && SettleAll(w, env) == w && !AnyReady(w.nodes, DoneIds(w.nodes))
    ensures TickRunning(w, env).nodes == w.nodes && TickRunning(w, env).launches == w.launches
  {
    NothingToLaunch(w, 0, FreeSlots(w), DoneIds(w.nodes), env.launches);
  }

  /** A tick that settles nothing leaves a node as it is, or launches it. */
  lemma MovedStays(w: World, env: TickEnv, i: nat)
    requires w.nodes != [] && SettleAll(w, env) == w && i < |w.nodes|
    ensures var v := TickRunning(w, env);
            && |v.nodes| == |w.nodes|
            && (v.nodes[i] == w.nodes[i] || (w.nodes[i].status.Pending? && (v.nodes[i].status.Running? || v.nodes[i].status.Blocked?)))
  {
    LoopOnNode(w, 0, FreeSlots(w), DoneIds(w.nodes), env.launches, i);
  }

  /** An interrupted node is driven again: after a resume and a tick some node works, or its launch
      failed. */
  lemma InterruptedRunsAgain(w: World, runs: Runs, merges: Id -> MergeOutcome, env: TickEnv, i: nat)
    requires Inv(w) && w.maxConcurrency >= 1 && RunsOk(runs) && EnvOk(env) && !AnyActive(w.nodes)
    requires i < |w.nodes| && w.nodes[i].status.Interrupted?
    ensures var v := TickRunning(Resume(w, runs, merges), env);
            AnyActive(v.nodes) || (|v.nodes| == |w.nodes| && v.nodes[i].status.Blocked?)
  {
    var resumed := Resume(w, runs, merges);
    assert NodeInv(w.nodes[i], w.useWorktrees, DoneIds(w.nodes), w.base);
    ResumeInv(w, runs, merges);
    ResumeEvolves(w, runs, merges);
    forall k | 0 <= k < |w.nodes|
      ensures !IsActive(resumed.nodes[k])
    {
      ResumedNode(w, runs, merges, k);
    }
    NothingToSettle(resumed, env);
    hide LaunchReady, LaunchFrom, SettleAll;
    MovedStays(resumed, env, i);
    TickVerdict(resumed, env);
    TickInv(resumed, env);
    var v := TickRunning(resumed, env);
    DoneGrows(w.nodes, resumed.nodes);
    DoneGrows(resumed.nodes, v.nodes);
    ActiveExists(v.nodes);
  }

  /** Resuming a stalled graph whose stopped nodes are blocked for other reasons than a merge gets
      nowhere: the next tick pauses it again with every node as it was. */
  lemma ResumeStallsAgain(w: World, runs: Runs, merges: Id -> MergeOutcome, env: TickEnv)
    requires !AnyActive(w.nodes) && AnyPending(w.nodes) && !AnyReady(w.nodes, DoneIds(w.nodes))
    requires NothingToResume(w.nodes)
    ensures var v := TickRunning(Resume(w, runs, merges), env);
            v.status.Paused? && v.nodes == w.nodes && v.launches == w.launches
  {
    var resumed := Resume(w, runs, merges);
    forall i | 0 <= i < |w.nodes|
      ensures resumed.nodes[i] == w.nodes[i]
    {
      assert w.nodes[i] in w.nodes && resumed.nodes[i] == ResumeNode(w.nodes[i], runs, merges(w.nodes[i].id));
    }
    assert resumed.nodes == w.nodes;
    var settled := SettleAll(resumed, env);
    forall i | 0 <= i < |w.nodes|
      ensures settled.nodes[i] == w.nodes[i]
    {
      assert !IsActive(w.nodes[i]);
    }
    assert settled.nodes == w.nodes;
    NothingToLaunch(settled, 0, FreeSlots(settled), DoneIds(settled.nodes), env.launches);
    StalledMeans(settled, DoneIds(settled.nodes));
    var i :| 0 <= i < |w.nodes| && w.nodes[i].status.Pending?;
    assert settled.nodes[i] in settled.nodes;
  }
}
