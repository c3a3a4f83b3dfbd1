// The registry's graph entry: an object its operations update in place, each proved to do what
// the step of the same name in Graph says.
module GraphRegistry {
  import opened Common
  import opened Proposal
  import opened Graph
  import G = Graph
  import opened GraphSafety

  class GraphSpec {
    const name: string
    const maxConcurrency: nat
    const review: bool
    const reviewIterations: bool
    const useWorktrees: bool
    var status: GraphState
    var nodes: seq<GraphNode>
    ghost var base: set<Id>
    ghost var launches: seq<Launch>

    ghost predicate Valid()
      reads this
    {
      DistinctNodeIds(nodes)
    }

    /** The graph as a value. */
    ghost function View(): World
      reads this
    {
      World(name, maxConcurrency, review, reviewIterations, useWorktrees, status, nodes, base, launches)
    }

    constructor (name: string, maxConcurrency: nat, review: bool, reviewIterations: bool, useWorktrees: bool)
      ensures Valid() && View() == Created(name, maxConcurrency, review, reviewIterations, useWorktrees)
    {
      this.name := name;
      this.maxConcurrency := maxConcurrency;
      this.review := review;
      this.reviewIterations := reviewIterations;
      this.useWorktrees := useWorktrees;
      status := GraphState.Proposing;
      nodes := [];
      base := {};
      launches := [];
    }

    /** The position of the node with the given id. */
    method FindNode(id: Id) returns (found: Option<nat>)
      ensures found.Some? ==> found.value < |nodes| && nodes[found.value].id == id
      ensures found.None? ==> forall i :: 0 <= i < |nodes| ==> nodes[i].id != id
    {
      for i := 0 to |nodes|
        invariant forall j :: 0 <= j < i ==> nodes[j].id != id
      {
        if nodes[i].id == id {
          return Some(i);
        }
      }
      found := None;
    }

    /** What a node that is not done becomes when it finishes. */
    static method Finished(n: GraphNode, runs: Runs, outcome: MergeOutcome) returns (node: GraphNode)
      requires !n.status.Done?
      ensures node == Finish(n, runs, outcome)
    {
      node := n;
      if node.workspace.Some? && node.workspace.value in runs {
        var iteration := runs[node.workspace.value].iteration;
        if iteration > node.iteration {
          node := node.(iteration := iteration);
        }
      }
      if node.worktree.Some? && node.branch.Some? {
        match outcome {
          case Merged =>
            node := node.(status := NodeState.Done, detail := None);
          case Conflict(error) =>
            node := node.(status := NodeState.Blocked, detail := Some("merge conflict: " + error));
          case BaseDirty =>
            node := node.(status := NodeState.Blocked, detail := Some(MERGE_WAITING));
        }
      } else {
        node := node.(status := NodeState.Done, detail := None);
      }
    }

    /** A node's agent is done: merge its branch if it has one, then mark the node. */
    method FinishNode(id: Id, runs: Runs, outcome: MergeOutcome)
      requires Valid()
      modifies this
      ensures Valid() && View() == FinishById(old(View()), id, runs, outcome)
    {
      var found := FindNode(id);
      FinishAnywhere(View(), found, id, runs, outcome);
      hide FinishById, DistinctNodeIds, Finish;
      if found.None? {
        return;
      }
      var i := found.value;
      var node := nodes[i];
      if node.status.Done? {
        return;
      }
      if node.worktree.Some? && node.branch.Some? && outcome.Merged? {
        base := base + {id};
      }
      node := Finished(node, runs, outcome);
      nodes := nodes[i := node];
    }

    /** Finish every listed node, in order. */
    method FinishAll(ids: seq<Id>, runs: Runs, merges: Id -> MergeOutcome)
      requires Valid() && Distinct(ids)
      modifies this
      ensures Valid() && View() == FinishListed(old(View()), Elems(ids), runs, merges)
    {
      assert nodes == FinishListed(View(), {}, runs, merges).nodes;
      assert base == FinishListed(View(), {}, runs, merges).base;
      assert Elems(ids[..0]) == {};
      for k := 0 to |ids|
        invariant Valid() && View() == FinishListed(old(View()), Elems(ids[..k]), runs, merges)
      {
        ghost var before := View();
        FinishNode(ids[k], runs, merges(ids[k]));
        assert ids[..k + 1] == ids[..k] + [ids[k]];
        ElemsAppend(ids[..k], ids[k]);
        assert ids[k] !in Elems(ids[..k]);
        FinishOneMore(old(View()), Elems(ids[..k]), ids[k], runs, merges);
      }
      assert ids[..|ids|] == ids;
    }

    /** Reflect one node's goal run into it; says whether the node is to be finished. */
    method SyncNode(i: nat, runs: Runs) returns (finish: bool)
      requires i < |nodes|
      modifies this`nodes
      ensures nodes == old(nodes)[i := Sync(old(nodes)[i], runs, reviewIterations)]
      ensures finish == WantsFinish(old(nodes)[i], runs, reviewIterations)
    {
      finish := false;
      var node := nodes[i];
      if !node.status.Running? {
        return;
      }
      if node.workspace.None? {
        node := node.(status := NodeState.Interrupted, detail := Some("no workspace to watch"));
      } else if node.workspace.value !in runs {
        node := node.(status := NodeState.Interrupted, detail := Some("its workspace was closed, or jmux restarted"));
      } else {
        var run := runs[node.workspace.value];
        node := node.(iteration := run.iteration);
        match run.status {
          case Done =>
            if reviewIterations {
              node := node.(status := NodeState.Review);
            } else {
              finish := true;
            }
          case Blocked(reason) =>
            node := node.(status := NodeState.Blocked, detail := Some(reason));
          case _ =>
        }
      }
      nodes := nodes[i := node];
    }

    /** Reflect every node's goal run into it; returns the nodes to be finished. */
    method SyncRuns(env: TickEnv) returns (toFinish: seq<Id>)
      requires Valid()
      modifies this`nodes
      ensures Valid() && Distinct(toFinish) && Synced(old(View()), View(), Elems(toFinish), env)
    {
      hide Sync, WantsFinish;
      toFinish := [];
      ghost var start := View();
      var i := 0;
      while i < |nodes|
        invariant i <= |nodes| == |start.nodes|
        invariant forall j :: 0 <= j < i ==> nodes[j] == Sync(start.nodes[j], env.runs, reviewIterations)
        invariant forall j :: i <= j < |nodes| ==> nodes[j] == start.nodes[j]
        invariant CollectedIds(start.nodes, i, toFinish, n => WantsFinish(n, env.runs, start.reviewIterations))
      {
        var id := nodes[i].id;
        var finish := SyncNode(i, env.runs);
        CollectOne(start.nodes, i, toFinish, n => WantsFinish(n, env.runs, start.reviewIterations));
        if finish {
          toFinish := toFinish + [id];
        }
        i := i + 1;
      }
      SyncedShape(start.nodes, nodes, env.runs, reviewIterations);
    }

    /** Reflect the goal runs into the nodes, then finish the nodes whose run is done. */
    method SyncNodeStates(env: TickEnv)
      requires Valid()
      modifies this
      ensures Valid() && View() == SettleAll(old(View()), env)
    {
      hide Synced, SettleAll, FinishListed, DistinctNodeIds;
      ghost var start := View();
      var toFinish := SyncRuns(env);
      ghost var synced := View();
      FinishAll(toFinish, env.finishRuns, env.merges);
      SettledInTwoPasses(start, synced, Elems(toFinish), env);
    }

    /** Start a node's goal run; on success the node is running in its new workspace. */
    method LaunchNode(i: nat, outcome: LaunchOutcome) returns (r: Result<(), string>)
      requires Valid() && i < |nodes|
      modifies this
      ensures Valid() && r.Ok? == outcome.Started?
      ensures outcome.Started? ==> View() == LaunchOne(old(View()), i, outcome)
      ensures outcome.Failed? ==> View() == old(View()) && r == Err(outcome.error)
    {
      var node := nodes[i];
      var branch, worktree: Option<string> := None, None;
      if useWorktrees {
        branch, worktree := Some(BranchName(name, node.id)), Some(WorktreeSuffix(node.id));
      }
      match outcome {
        case Failed(error) =>
          return Err(error);
        case Started(workspace) =>
          launches := launches + [Launch(node.id, UpstreamRefs(nodes, node.deps), base)];
          nodes := nodes[i := node.(status := NodeState.Running, workspace := workspace, branch := branch,
                                    worktree := worktree, detail := None)];
          return Ok(());
      }
    }

    /** The ids of the ready nodes, in plan order, with their positions. */
    method ReadyIds(done: set<Id>) returns (ids: seq<Id>, ghost at: seq<nat>)
      ensures ReadyList(nodes, done, ids, at)
    {
      ids, at := [], [];
      for i := 0 to |nodes|
        invariant |ids| == |at|
        invariant forall j :: 0 <= j < |at| ==> at[j] < i && nodes[at[j]].id == ids[j] && IsReady(nodes[at[j]], done)
        invariant forall j, k :: 0 <= j < k < |at| ==> at[j] < at[k]
        invariant forall k :: 0 <= k < i && IsReady(nodes[k], done) ==> k in at
      {
        if IsReady(nodes[i], done) {
          ids, at := ids + [nodes[i].id], at + [i];
        }
      }
    }

    /** Launch a node, or block it with the reason it could not start. */
    method LaunchOrBlock(i: nat, outcome: LaunchOutcome) returns (started: bool)
      requires Valid() && i < |nodes|
      modifies this
      ensures Valid() && View() == LaunchOne(old(View()), i, outcome) && started == outcome.Started?
    {
      var launched := LaunchNode(i, outcome);
      match launched {
        case Ok(_) =>
          started := true;
        case Err(error) =>
          nodes := nodes[i := nodes[i].(status := NodeState.Blocked, detail := Some(error))];
          started := false;
      }
    }

    method LaunchById(id: Id, ghost i: nat, outcome: LaunchOutcome) returns (started: bool)
      requires Valid() && i < |nodes| && nodes[i].id == id
      modifies this
      ensures Valid() && View() == LaunchOne(old(View()), i, outcome) && started == outcome.Started?
    {
      var found := FindNode(id);
      assert found.value == i;
      started := LaunchOrBlock(found.value, outcome);
    }

    /** Launch the listed ready nodes in order while slots last; one that cannot start is blocked. */
    method LaunchInOrder(readyIds: seq<Id>, ghost at: seq<nat>, available: nat, outcomes: Id -> LaunchOutcome)
      requires Valid() && LaunchLoop(View(), View(), readyIds, at, 0, available, outcomes)
      modifies this
      ensures Valid() && View() == LaunchReady(old(View()), outcomes)
    {
      hide LaunchLoop, LaunchReady, LaunchOne;
      ghost var start, now := View(), View();
      var slots: nat := available;
      var j := 0;
      while j < |readyIds| && slots > 0
        invariant Valid() && View() == now && j <= |readyIds|
        invariant LaunchLoop(start, now, readyIds, at, j, slots, outcomes)
      {
        var id := readyIds[j];
        LoopStep(start, now, readyIds, at, j, slots, outcomes);
        var started := LaunchById(id, at[j], outcomes(id));
        now := LaunchOne(now, at[j], outcomes(id));
        if started {
          slots := slots - 1;
        }
        j := j + 1;
      }
      LoopEnd(start, now, readyIds, at, j, slots, outcomes);
    }

    /** Launch ready nodes up to the cap. */
    method LaunchReadyNodes(outcomes: Id -> LaunchOutcome)
      requires Valid()
      modifies this
      ensures Valid() && View() == LaunchReady(old(View()), outcomes)
    {
      var running := ActiveCount(nodes);
      var slots: nat := if running <= maxConcurrency then maxConcurrency - running else 0;
      var doneIds := DoneIds(nodes);
      var readyIds, at := ReadyIds(doneIds);
      LoopStart(View(), readyIds, at, outcomes);
      LaunchInOrder(readyIds, at, slots, outcomes);
    }

    /** One scheduler pass over a running graph. */
    method TickRunning(env: TickEnv)
      requires Valid()
      modifies this
      ensures Valid() && View() == G.TickRunning(old(View()), env)
    {
      if nodes == [] {
        status := GraphState.Proposing;
        return;
      }
      SyncNodeStates(env);
      if forall n <- nodes :: n.status.Done? {
        status := GraphState.Complete;
        return;
      }
      ghost var settled := View();
      var doneIds := DoneIds(nodes);
      LaunchReadyNodes(env.launches);
      var anyActive := exists n <- nodes :: IsActive(n) || n.status.Pending?;
      var anyProgressable := exists n <- nodes :: IsActive(n) || IsReady(n, doneIds);
      if anyActive && !anyProgressable {
        status := GraphState.Paused;
      }
    }

    /** A plan file was read while the graph waits for one. */
    method TickProposing(plan: seq<ProposalNode>)
      requires Valid()
      modifies this
      ensures Valid() && View() == G.TickProposing(old(View()), plan)
    {
      var parsed := ParseProposal(plan);
      if parsed.Ok? {
        if review {
          status := GraphState.Proposed;
        } else {
          SetPlan(parsed.value);
          status := GraphState.Running;
        }
      }
    }

    method SetPlan(plan: seq<ProposalNode>)
      requires StaticOk(plan)
      modifies this`nodes
      ensures Valid() && nodes == StartPlan(old(View()), plan).nodes
    {
      nodes := seq(|plan|, i requires 0 <= i < |plan| => NewNode(plan[i]));
      PlanDeps(plan, nodes);
    }

    /** A human approves the plan that is on disk right now. */
    method ApproveGraph(plan: seq<ProposalNode>) returns (r: Result<nat, string>)
      requires Valid()
      modifies this
      ensures Valid() && View() == Approve(old(View()), plan)
      ensures r.Ok? <==> UnderReview(old(View())) && Acceptable(plan)
      ensures r.Ok? ==> r.value == |nodes|
    {
      if !(status.Proposing? || status.Proposed?) {
        return Err("there is no plan waiting for approval");
      }
      var parsed := ParseProposal(plan);
      if parsed.Err? {
        return Err("invalid plan");
      }
      SetPlan(parsed.value);
      status := GraphState.Running;
      r := Ok(|nodes|);
    }

    method SetGraphState(state: GraphState)
      modifies this`status
      ensures View() == old(View()).(status := state)
    {
      status := state;
    }

    /** Re-queue interrupted nodes, retry merges that are waiting, and run again. */
    method ResumeGraph(runs: Runs, merges: Id -> MergeOutcome) returns (r: Result<(), string>)
      requires Valid()
      modifies this
      ensures Valid() && View() == Resume(old(View()), runs, merges)
      ensures r.Ok? <==> old(nodes) != []
    {
      if nodes == [] {
        return Err("no approved plan yet");
      }
      var mergeRetries: seq<Id> := [];
      ghost var start := View();
      var i := 0;
      while i < |nodes|
        invariant i <= |nodes| == |start.nodes|
        invariant View() == start.(nodes := nodes)
        invariant forall j :: 0 <= j < i ==> nodes[j] == Requeue(start.nodes[j])
        invariant forall j :: i <= j < |nodes| ==> nodes[j] == start.nodes[j]
        invariant CollectedIds(start.nodes, i, mergeRetries, RetriesMerge)
      {
        var node := nodes[i];
        CollectOne(start.nodes, i, mergeRetries, RetriesMerge);
        if node.status.Interrupted? {
          node := node.(status := NodeState.Pending, detail := None);
        }
        if node.status.Blocked? && IsMergeDetail(node.detail) {
          mergeRetries := mergeRetries + [node.id];
        }
        nodes := nodes[i := node];
        i := i + 1;
      }
      ghost var requeued := View();
      assert Requeued(start, requeued, Elems(mergeRetries));
      SameShapeDistinct(start.nodes, nodes);
      FinishAll(mergeRetries, runs, merges);
      status := GraphState.Running;
      ResumedInTwoPasses(start, requeued, Elems(mergeRetries), runs, merges);
      r := Ok(());
    }

    /** A human accepts a run's current iteration: finish the node the run is linked to. */
    method AcceptNode(ws: WsId, runs: Runs, merges: Id -> MergeOutcome)
      requires Valid()
      modifies this
      ensures Valid() && View() == Accept(old(View()), ws, runs, merges)
    {
      if ws !in runs || runs[ws].link.None? {
        return;
      }
      var link := runs[ws].link.value;
      if link.graph == name {
        FinishNode(link.node, runs, merges(link.node));
      }
    }

    /** A human asks for another iteration: a node in review works again. */
    method ContinueNode(ws: WsId, runs: Runs)
      requires Valid()
      modifies this
      ensures Valid() && View() == Continue(old(View()), ws, runs)
    {
      if ws !in runs || runs[ws].link.None? || runs[ws].link.value.graph != name {
        assert nodes == Continue(View(), ws, runs).nodes;
        return;
      }
      var found := FindNode(runs[ws].link.value.node);
      if found.Some? && nodes[found.value].status.Review? {
        var i := found.value;
        nodes := nodes[i := nodes[i].(status := NodeState.Running, detail := None)];
      }
      assert nodes == Continue(old(View()), ws, runs).nodes;
    }

    /** The first load after a restart: what was working has lost its run. */
    method LoadAfterRestart()
      requires Valid()
      modifies this
      ensures Valid() && View() == Restart(old(View()))
    {
      hide SomeActive, DistinctNodeIds;
      NoneActive();
      assert old(nodes)[..0] == [];
      var interrupted := false;
      var i := 0;
      while i < |nodes|
        invariant i <= |nodes| == |old(nodes)|
        invariant View() == old(View()).(nodes := nodes)
        invariant forall j :: 0 <= j < i ==> nodes[j] == RestartNode(old(nodes)[j])
        invariant forall j :: i <= j < |nodes| ==> nodes[j] == old(nodes)[j]
        invariant interrupted <==> SomeActive(old(nodes)[..i])
      {
        var node := nodes[i];
        assert old(nodes)[..i + 1] == old(nodes)[..i] + [node];
        SomeActiveAppend(old(nodes)[..i], node);
        if node.status.Running? || node.status.Review? {
          node := node.(status := NodeState.Interrupted, detail := Some("interrupted by a restart"), workspace := None);
          interrupted := true;
        }
        nodes := nodes[i := node];
        i := i + 1;
      }
      assert old(nodes)[..|nodes|] == old(nodes);
      RestartStops(old(View()));
      SameShapeDistinct(old(nodes), nodes);
      if status.Running? && interrupted {
        status := GraphState.Paused;
      }
      assert nodes == Restart(old(View())).nodes;
    }
  }

  /** `ids` are the ids of the chosen nodes among the first `i`. */
  ghost predicate CollectedIds(nodes: seq<GraphNode>, i: nat, ids: seq<Id>, chosen: GraphNode -> bool)
    requires i <= |nodes|
  {
    && Distinct(ids)
    && (forall id <- ids :: exists j :: 0 <= j < i && nodes[j].id == id)
    && (forall j :: 0 <= j < i ==> (nodes[j].id in ids <==> chosen(nodes[j])))
  }

  lemma CollectOne(nodes: seq<GraphNode>, i: nat, ids: seq<Id>, chosen: GraphNode -> bool)
    requires DistinctNodeIds(nodes) && i < |nodes| && CollectedIds(nodes, i, ids, chosen)
    ensures CollectedIds(nodes, i + 1, if chosen(nodes[i]) then ids + [nodes[i].id] else ids, chosen)
  {
    var id := nodes[i].id;
    assert id !in ids;
    assert forall x :: x in ids + [id] <==> x in ids || x == id;
    forall x | x in ids + [id]
      ensures exists j :: 0 <= j < i + 1 && nodes[j].id == x
    {
      if x in ids {
        var j :| 0 <= j < i && nodes[j].id == x;
      } else {
        assert nodes[i].id == x;
      }
    }
  }

  predicate SomeActive(nodes: seq<GraphNode>) {
    exists n <- nodes :: IsActive(n)
  }

  lemma NoneActive()
    ensures !SomeActive([])
  {
  }

  lemma RestartStops(w: World)
    ensures Restart(w).status == if w.status.Running? && SomeActive(w.nodes) then GraphState.Paused else w.status
  {
  }

  lemma SomeActiveAppend(nodes: seq<GraphNode>, n: GraphNode)
    ensures SomeActive(nodes + [n]) <==> SomeActive(nodes) || IsActive(n)
  {
    assert forall m :: m in nodes + [n] <==> m in nodes || m == n;
  }

  // ---------- the two passes over the nodes, taken together ----------

  /** Finishing the listed ids, each on its own. */
  ghost function FinishListed(w: World, ids: set<Id>, runs: Runs, merges: Id -> MergeOutcome): World {
    w.(nodes := seq(|w.nodes|, i requires 0 <= i < |w.nodes| =>
                    if w.nodes[i].id in ids then Finish(w.nodes[i], runs, merges(w.nodes[i].id)) else w.nodes[i]),
       base := w.base + set n | n in w.nodes && n.id in ids && FinishMerges(n, merges(n.id)) :: n.id)
  }

  function Requeue(n: GraphNode): GraphNode {
    if n.status.Interrupted? then n.(status := NodeState.Pending, detail := None) else n
  }

  /** Finishing other nodes leaves a node as it was. */
  lemma NotListed(w: World, ids: set<Id>, n: GraphNode, runs: Runs, merges: Id -> MergeOutcome)
    requires n.id !in ids
    ensures n in FinishListed(w, ids, runs, merges).nodes <==> n in w.nodes
  {
    var listed := FinishListed(w, ids, runs, merges);
    if n in listed.nodes {
      var i :| 0 <= i < |listed.nodes| && listed.nodes[i] == n;
      assert w.nodes[i] == n;
    }
    if n in w.nodes {
      var i :| 0 <= i < |w.nodes| && w.nodes[i] == n;
      assert listed.nodes[i] == n;
    }
  }

  lemma FinishOneMore(w: World, ids: set<Id>, id: Id, runs: Runs, merges: Id -> MergeOutcome)
    requires id !in ids
    ensures FinishById(FinishListed(w, ids, runs, merges), id, runs, merges(id)) == FinishListed(w, ids + {id}, runs, merges)
  {
    var a := FinishById(FinishListed(w, ids, runs, merges), id, runs, merges(id));
    var b := FinishListed(w, ids + {id}, runs, merges);
    var listed := FinishListed(w, ids, runs, merges);
    assert a.nodes == b.nodes;
    forall n: GraphNode | n.id == id
      ensures n in listed.nodes <==> n in w.nodes
    {
      NotListed(w, ids, n, runs, merges);
    }
    assert forall x :: x in a.base <==> x in b.base;
  }

  lemma SyncedShape(a: seq<GraphNode>, b: seq<GraphNode>, runs: Runs, reviewIterations: bool)
    requires |a| == |b| && DistinctNodeIds(a)
    requires forall i :: 0 <= i < |a| ==> b[i] == Sync(a[i], runs, reviewIterations)
    ensures DistinctNodeIds(b)
  {
    SameShapeDistinct(a, b);
  }

  /** Finishing by id finishes the one node with the id, or none. */
  lemma FinishAnywhere(w: World, found: Option<nat>, id: Id, runs: Runs, outcome: MergeOutcome)
    requires DistinctNodeIds(w.nodes)
    requires match found
             case None => forall i :: 0 <= i < |w.nodes| ==> w.nodes[i].id != id
             case Some(i) => i < |w.nodes| && w.nodes[i].id == id
    ensures DistinctNodeIds(FinishById(w, id, runs, outcome).nodes)
    ensures FinishById(w, id, runs, outcome) == match found
              case None => w
              case Some(i) => if w.nodes[i].status.Done? then w else
                              w.(nodes := w.nodes[i := Finish(w.nodes[i], runs, outcome)],
                                 base := w.base + (if FinishMerges(w.nodes[i], outcome) then {id} else {}))
  {
    var v := FinishById(w, id, runs, outcome);
    if found.None? {
      assert v.nodes == w.nodes && v.base == w.base;
    } else {
      var i := found.value;
      assert w.nodes[i] in w.nodes;
      assert v.nodes == w.nodes[i := Finish(w.nodes[i], runs, outcome)];
      assert v.base == w.base + if FinishMerges(w.nodes[i], outcome) then {id} else {};
    }
  }

  ghost predicate Synced(w: World, synced: World, ids: set<Id>, env: TickEnv) {
    && synced == w.(nodes := synced.nodes) && |synced.nodes| == |w.nodes|
    && (forall i :: 0 <= i < |w.nodes| ==> synced.nodes[i] == Sync(w.nodes[i], env.runs, w.reviewIterations))
    && (forall i :: 0 <= i < |w.nodes| ==> (w.nodes[i].id in ids <==> WantsFinish(w.nodes[i], env.runs, w.reviewIterations)))
  }

  lemma SettledNodes(w: World, synced: World, ids: set<Id>, env: TickEnv)
    requires Synced(w, synced, ids, env)
    ensures FinishListed(synced, ids, env.finishRuns, env.merges).nodes == SettleAll(w, env).nodes
  {
    var a, b := FinishListed(synced, ids, env.finishRuns, env.merges), SettleAll(w, env);
    forall i | 0 <= i < |w.nodes|
      ensures a.nodes[i] == b.nodes[i]
    {
      assert synced.nodes[i].id == w.nodes[i].id;
    }
  }

  lemma SettledBase(w: World, synced: World, ids: set<Id>, env: TickEnv)
    requires Synced(w, synced, ids, env)
    ensures FinishListed(synced, ids, env.finishRuns, env.merges).base == SettleAll(w, env).base
  {
    var inA := (n: GraphNode) => n.id in ids && FinishMerges(n, env.merges(n.id));
    var inB := (n: GraphNode) => SettleMerges(n, env, w.reviewIterations);
    SameMerges(synced.nodes, w.nodes, inA, inB);
    assert synced.base == w.base;
    hide Synced, FinishMerges, SettleMerges;
    assert FinishListed(synced, ids, env.finishRuns, env.merges).base == synced.base + Chosen(synced.nodes, inA);
    assert SettleAll(w, env).base == w.base + Chosen(w.nodes, inB);
  }

  /** Syncing all nodes and then finishing the collected ones settles each node on its own. */
  lemma SettledInTwoPasses(w: World, synced: World, ids: set<Id>, env: TickEnv)
    requires Synced(w, synced, ids, env)
    ensures FinishListed(synced, ids, env.finishRuns, env.merges) == SettleAll(w, env)
  {
    SettledNodes(w, synced, ids, env);
    SettledBase(w, synced, ids, env);
  }

  ghost predicate Requeued(w: World, requeued: World, ids: set<Id>) {
    && requeued == w.(nodes := requeued.nodes) && |requeued.nodes| == |w.nodes|
    && (forall i :: 0 <= i < |w.nodes| ==> requeued.nodes[i] == Requeue(w.nodes[i]))
    && (forall i :: 0 <= i < |w.nodes| ==> (w.nodes[i].id in ids <==> RetriesMerge(w.nodes[i])))
  }

  lemma ResumedNodes(w: World, requeued: World, ids: set<Id>, runs: Runs, merges: Id -> MergeOutcome)
    requires Requeued(w, requeued, ids)
    ensures FinishListed(requeued, ids, runs, merges).nodes == Resume(w, runs, merges).nodes
  {
    var a, b := FinishListed(requeued, ids, runs, merges), Resume(w, runs, merges);
    forall i | 0 <= i < |w.nodes|
      ensures a.nodes[i] == b.nodes[i]
    {
      assert requeued.nodes[i].id == w.nodes[i].id;
    }
  }

  lemma ResumedBase(w: World, requeued: World, ids: set<Id>, runs: Runs, merges: Id -> MergeOutcome)
    requires w.nodes != [] && Requeued(w, requeued, ids)
    ensures FinishListed(requeued, ids, runs, merges).base == Resume(w, runs, merges).base
  {
    var inA := (n: GraphNode) => n.id in ids && FinishMerges(n, merges(n.id));
    var inB := (n: GraphNode) => RetriesMerge(n) && FinishMerges(n, merges(n.id));
    SameMerges(requeued.nodes, w.nodes, inA, inB);
    assert requeued.base == w.base;
    hide Requeued, FinishMerges, RetriesMerge;
    assert FinishListed(requeued, ids, runs, merges).base == requeued.base + Chosen(requeued.nodes, inA);
    assert Resume(w, runs, merges).base == w.base + Chosen(w.nodes, inB);
  }

  /** Re-queueing interrupted nodes and then retrying the collected merges resumes each node on its own. */
  lemma ResumedInTwoPasses(w: World, requeued: World, ids: set<Id>, runs: Runs, merges: Id -> MergeOutcome)
    requires w.nodes != [] && Requeued(w, requeued, ids)
    ensures FinishListed(requeued, ids, runs, merges).(status := GraphState.Running) == Resume(w, runs, merges)
  {
    ResumedNodes(w, requeued, ids, runs, merges);
    ResumedBase(w, requeued, ids, runs, merges);
  }

  ghost function Chosen(nodes: seq<GraphNode>, chosen: GraphNode -> bool): set<Id> {
    set n | n in nodes && chosen(n) :: n.id
  }

  /** Position by position the same choice of nodes chooses the same ids. */
  lemma SameMerges(a: seq<GraphNode>, b: seq<GraphNode>, inA: GraphNode -> bool, inB: GraphNode -> bool)
    requires |a| == |b| && forall i :: 0 <= i < |a| ==> a[i].id == b[i].id && inA(a[i]) == inB(b[i])
    ensures Chosen(a, inA) == Chosen(b, inB)
  {
    ChosenIds(a, b, inA, inB);
    ChosenIds(b, a, inB, inA);
  }

  lemma ChosenIds(a: seq<GraphNode>, b: seq<GraphNode>, inA: GraphNode -> bool, inB: GraphNode -> bool)
    requires |a| == |b| && forall i :: 0 <= i < |a| ==> a[i].id == b[i].id && inA(a[i]) == inB(b[i])
    ensures Chosen(a, inA) <= Chosen(b, inB)
  {
    forall x | x in Chosen(a, inA)
      ensures x in Chosen(b, inB)
    {
      var n :| n in a && inA(n) && n.id == x;
      var i :| 0 <= i < |a| && a[i] == n;
      assert b[i] in b;
    }
  }

  // ---------- the launch loop, from one ready node to the next ----------

  /** Where the loop stands before its `j`th ready node. */
  ghost function NextAt(at: seq<nat>, j: nat, end: nat): nat {
    if j < |at| then at[j] else end
  }

  /** `ids` are the ids of the ready nodes in plan order, `at` their positions. */
  ghost predicate ReadyList(nodes: seq<GraphNode>, done: set<Id>, ids: seq<Id>, at: seq<nat>) {
    && |ids| == |at|
    && (forall j :: 0 <= j < |at| ==> at[j] < |nodes| && nodes[at[j]].id == ids[j] && IsReady(nodes[at[j]], done))
    && (forall j, k :: 0 <= j < k < |at| ==> at[j] < at[k])
    && (forall i :: 0 <= i < |nodes| && IsReady(nodes[i], done) ==> i in at)
  }

  lemma ReadyAt(nodes: seq<GraphNode>, done: set<Id>, ids: seq<Id>, at: seq<nat>, j: nat)
    requires ReadyList(nodes, done, ids, at) && j < |ids|
    ensures |ids| == |at| && at[j] < |nodes| && nodes[at[j]].id == ids[j] && IsReady(nodes[at[j]], done)
    ensures at[j] < NextAt(at, j + 1, |nodes|) <= |nodes|
  {
  }

  /** Between two listed positions nothing is ready. */
  lemma GapUnready(nodes: seq<GraphNode>, done: set<Id>, ids: seq<Id>, at: seq<nat>, j: nat)
    requires ReadyList(nodes, done, ids, at) && j <= |ids|
    ensures |ids| == |at| && NextAt(at, j, |nodes|) <= |nodes|
    ensures forall i :: (if j == 0 then 0 else at[j - 1] + 1) <= i < NextAt(at, j, |nodes|) ==> !IsReady(nodes[i], done)
  {
    var lo, hi := if j == 0 then 0 else at[j - 1] + 1, NextAt(at, j, |nodes|);
    forall k | 0 <= k < |at|
      ensures at[k] < lo || hi <= at[k]
    {
    }
    assert forall i :: lo <= i < hi ==> i !in at;
  }

  /** Before its `j`th ready node the loop still has the rest of the launching to do, on nodes it
      has not touched yet. */
  ghost predicate LaunchLoop(start: World, now: World, ids: seq<Id>, at: seq<nat>, j: nat, slots: nat, launches: Id -> LaunchOutcome) {
    && ReadyList(start.nodes, DoneIds(start.nodes), ids, at) && j <= |ids|
    && SameFrom(start.nodes, now.nodes, NextAt(at, j, |start.nodes|))
    && NextAt(at, j, |start.nodes|) <= |start.nodes|
    && LaunchReady(start, launches)
       == LaunchFrom(now, NextAt(at, j, |start.nodes|), slots, DoneIds(start.nodes), launches)
  }

  lemma LoopStart(start: World, ids: seq<Id>, at: seq<nat>, launches: Id -> LaunchOutcome)
    requires ReadyList(start.nodes, DoneIds(start.nodes), ids, at)
    ensures LaunchLoop(start, start, ids, at, 0, FreeSlots(start), launches)
  {
    var done := DoneIds(start.nodes);
    GapUnready(start.nodes, done, ids, at, 0);
    SkipUnready(start, 0, NextAt(at, 0, |start.nodes|), FreeSlots(start), done, launches);
  }

  lemma LoopStep(start: World, now: World, ids: seq<Id>, at: seq<nat>, j: nat, slots: nat, launches: Id -> LaunchOutcome)
    requires LaunchLoop(start, now, ids, at, j, slots, launches) && j < |ids| && slots > 0
    ensures |at| == |ids| && at[j] < |now.nodes| && now.nodes[at[j]].id == ids[j]
    ensures LaunchLoop(start, LaunchOne(now, at[j], launches(ids[j])), ids, at, j + 1,
                       if launches(ids[j]).Started? then slots - 1 else slots, launches)
  {
    hide LaunchReady;
    var done := DoneIds(start.nodes);
    ReadyAt(start.nodes, done, ids, at, j);
    GapUnready(start.nodes, done, ids, at, j + 1);
    hide ReadyList, DoneIds;
    var i := at[j];
    assert now.nodes[i] == start.nodes[i];
    var outcome := launches(ids[j]);
    var next, left := LaunchOne(now, i, outcome), if outcome.Started? then slots - 1 else slots;
    LaunchStep(now, i, slots, done, launches);
    LaunchTouchesOne(now, i, outcome);
    hide LaunchFrom, LaunchOne;
    SkipUnready(next, i + 1, NextAt(at, j + 1, |start.nodes|), left, done, launches);
  }

  lemma LoopEnd(start: World, now: World, ids: seq<Id>, at: seq<nat>, j: nat, slots: nat, launches: Id -> LaunchOutcome)
    requires LaunchLoop(start, now, ids, at, j, slots, launches) && (j >= |ids| || slots == 0)
    ensures now == LaunchReady(start, launches)
  {
  }

  /** The two node lists agree from position `k` on. */
  ghost predicate SameFrom(a: seq<GraphNode>, b: seq<GraphNode>, k: nat) {
    |a| == |b| && forall i :: k <= i < |a| ==> b[i] == a[i]
  }

  lemma LaunchTouchesOne(w: World, k: nat, outcome: LaunchOutcome)
    requires k < |w.nodes|
    ensures SameFrom(w.nodes, LaunchOne(w, k, outcome).nodes, k + 1)
  {
  }

  lemma LaunchStep(w: World, k: nat, slots: nat, done: set<Id>, launches: Id -> LaunchOutcome)
    requires k < |w.nodes| && slots > 0 && IsReady(w.nodes[k], done)
    ensures var outcome := launches(w.nodes[k].id);
            LaunchFrom(w, k, slots, done, launches)
            == LaunchFrom(LaunchOne(w, k, outcome), k + 1, if outcome.Started? then slots - 1 else slots, done, launches)
  {
  }

  lemma {:induction false} SkipUnready(w: World, k: nat, k': nat, slots: nat, done: set<Id>, launches: Id -> LaunchOutcome)
    requires k <= k' <= |w.nodes|
    requires forall i :: k <= i < k' ==> !IsReady(w.nodes[i], done)
    ensures LaunchFrom(w, k, slots, done, launches) == LaunchFrom(w, k', slots, done, launches)
    decreases k' - k
  {
    if k < k' && slots > 0 {
      SkipUnready(w, k + 1, k', slots, done, launches);
    }
  }
}
