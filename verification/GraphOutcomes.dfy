// What each step makes of each node, field by field, and who may turn a node done.
module GraphOutcomes {
  import opened Common
  import opened Proposal
  import opened Graph
  import opened GraphSafety
  import opened GraphProgress

  // ---------- how a node ends, is launched, is named ----------

  /** The later of the iteration a node had and the one its run is at, if it has a run. */
  predicate IsLater(it: nat, had: nat, runs: Runs, ws: Option<WsId>) {
    var seen := ws.Some? && ws.value in runs;
    && it >= had && (seen ==> it >= runs[ws.value].iteration)
    && (it == had || (seen && it == runs[ws.value].iteration))
  }

  /** `m` is `n`, finished at the later iteration: done, or blocked when its branch did not merge. */
  predicate EndsAs(n: GraphNode, m: GraphNode, had: nat, runs: Runs, outcome: MergeOutcome) {
    && m == n.(status := m.status, iteration := m.iteration, detail := m.detail)
    && IsLater(m.iteration, had, runs, n.workspace)
    && if n.worktree.Some? && n.branch.Some? && outcome.Conflict? then
         m.status.Blocked? && m.detail == Some("merge conflict: " + outcome.error)
       else if n.worktree.Some? && n.branch.Some? && outcome.BaseDirty? then
         m.status.Blocked? && m.detail.Some? && "merge" <= m.detail.value
       else
         m.status.Done? && m.detail.None?
  }

  /** `m` is `n` after a launch: running in the workspace reported, or blocked with the error. */
  predicate LaunchedAs(w: World, n: GraphNode, m: GraphNode, outcome: LaunchOutcome) {
    match outcome
    case Started(ws) =>
      && m.status.Running? && m.workspace == ws && m.detail.None?
      && m == n.(status := m.status, workspace := m.workspace, detail := m.detail, branch := m.branch, worktree := m.worktree)
      && (w.useWorktrees ==> m.branch == Some("graph/" + w.name + "/" + n.id) && m.worktree == Some("-worktrees/" + n.id))
      && (!w.useWorktrees ==> m.branch.None? && m.worktree.None?)
    case Failed(error) => m.status.Blocked? && m.detail == Some(error) && m == n.(status := m.status, detail := m.detail)
  }

  /** The verdict on workspace `ws` is about the node with this id of this graph. */
  predicate Names(w: World, ws: WsId, runs: Runs, id: Id) {
    ws in runs && runs[ws].link == Some(GraphLink(w.name, id))
  }

  /** Blocked for a reason that reads like a merge. */
  predicate MergeBlocked(n: GraphNode) {
    n.status.Blocked? && n.detail.Some? && "merge" <= n.detail.value
  }

  // ---------- the tick ----------

  /** A running node's status after a tick: its run gone, blocked, done under review, done, or going on. */
  ghost predicate TickedAs(w: World, n: GraphNode, m: GraphNode, env: TickEnv) {
    if n.workspace.None? || n.workspace.value !in env.runs then
      m.status.Interrupted? && m.detail.Some? && m == n.(status := m.status, detail := m.detail)
    else
      var run := env.runs[n.workspace.value];
      match run.status
      case Blocked(reason) =>
        m.status.Blocked? && m.detail == Some(reason) && m.iteration == run.iteration
        && m == n.(status := m.status, detail := m.detail, iteration := m.iteration)
      case Done =>
        if w.reviewIterations then
          m.status.Review? && m.iteration == run.iteration && m == n.(status := m.status, iteration := m.iteration)
        else EndsAs(n, m, run.iteration, env.finishRuns, env.merges(n.id))
      case _ => m.iteration == run.iteration && m == n.(iteration := m.iteration)
  }

  /** The launch loop leaves a node alone, or launches it ready. */
  lemma {:induction false} LoopOnNode(w: World, k: nat, slots: nat, done: set<Id>, launches: Id -> LaunchOutcome, i: nat)
    requires k <= |w.nodes| && i < |w.nodes|
    ensures var v := LaunchFrom(w, k, slots, done, launches); var n := w.nodes[i];
            && |v.nodes| == |w.nodes|
            && (v.nodes[i] == n
                || (n.status.Pending? && (forall d <- n.deps :: d in done) && LaunchedAs(w, n, v.nodes[i], launches(n.id))))
    ensures i < k ==> LaunchFrom(w, k, slots, done, launches).nodes[i] == w.nodes[i]
    decreases |w.nodes| - k
  {
    if k < |w.nodes| && slots > 0 {
      if IsReady(w.nodes[k], done) {
        var outcome := launches(w.nodes[k].id);
        var next := LaunchOne(w, k, outcome);
        LoopOnNode(next, k + 1, if outcome.Started? then slots - 1 else slots, done, launches, i);
        if i == k {
          assert LaunchedAs(w, w.nodes[k], next.nodes[k], outcome);
        }
      } else {
        LoopOnNode(w, k + 1, slots, done, launches, i);
      }
    }
  }

  /** Nodes are launched in plan order: none is, while one before it was ready and was left waiting. */
  lemma {:induction false} LoopInOrder(w: World, k: nat, slots: nat, done: set<Id>, launches: Id -> LaunchOutcome, i: nat, j: nat)
    requires k <= i < j < |w.nodes| && w.nodes[i].status.Pending? && forall d <- w.nodes[i].deps :: d in done
    ensures var v := LaunchFrom(w, k, slots, done, launches);
            |v.nodes| == |w.nodes| && (v.nodes[i] == w.nodes[i] ==> v.nodes[j] == w.nodes[j])
    decreases |w.nodes| - k
  {
    LoopOnNode(w, k, slots, done, launches, i);
    if slots > 0 {
      if IsReady(w.nodes[k], done) {
        var outcome := launches(w.nodes[k].id);
        var next, left := LaunchOne(w, k, outcome), if outcome.Started? then slots - 1 else slots;
        if k == i {
          LoopOnNode(next, k + 1, left, done, launches, i);
        } else {
          LoopInOrder(next, k + 1, left, done, launches, i, j);
        }
      } else {
        LoopInOrder(w, k + 1, slots, done, launches, i, j);
      }
    }
  }

  /** The loop changes neither the base nor the graph's settings, and logs what it starts. */
  lemma {:induction false} LoopLogs(w: World, k: nat, slots: nat, done: set<Id>, launches: Id -> LaunchOutcome)
    requires k <= |w.nodes|
    ensures var v := LaunchFrom(w, k, slots, done, launches);
            && v == w.(nodes := v.nodes, launches := v.launches) && |v.nodes| == |w.nodes|
            && w.launches <= v.launches
            && (forall l <- v.launches[|w.launches|..] :: l.base == w.base && launches(l.id).Started?)
    ensures var v := LaunchFrom(w, k, slots, done, launches);
            forall i :: k <= i < |w.nodes| && v.nodes[i] != w.nodes[i] && launches(w.nodes[i].id).Started? ==>
              exists l <- v.launches[|w.launches|..] :: l.id == w.nodes[i].id
    decreases |w.nodes| - k
  {
    if k < |w.nodes| && slots > 0 {
      if IsReady(w.nodes[k], done) {
        LoopLogsReady(w, k, slots, done, launches);
      } else {
        LoopLogs(w, k + 1, slots, done, launches);
        LoopOnNode(w, k + 1, slots, done, launches, k);
      }
    }
  }

  lemma {:induction false} LoopLogsReady(w: World, k: nat, slots: nat, done: set<Id>, launches: Id -> LaunchOutcome)
    requires k < |w.nodes| && slots > 0 && IsReady(w.nodes[k], done)
    ensures var v := LaunchFrom(w, k, slots, done, launches);
            && v == w.(nodes := v.nodes, launches := v.launches) && |v.nodes| == |w.nodes|
            && w.launches <= v.launches
            && (forall l <- v.launches[|w.launches|..] :: l.base == w.base && launches(l.id).Started?)
    ensures var v := LaunchFrom(w, k, slots, done, launches);
            forall i :: k <= i < |w.nodes| && v.nodes[i] != w.nodes[i] && launches(w.nodes[i].id).Started? ==>
              exists l <- v.launches[|w.launches|..] :: l.id == w.nodes[i].id
    decreases |w.nodes| - k, 0
  {
    var outcome := launches(w.nodes[k].id);
    var next, left := LaunchOne(w, k, outcome), if outcome.Started? then slots - 1 else slots;
    var v := LaunchFrom(next, k + 1, left, done, launches);
    LoopLogs(next, k + 1, left, done, launches);
    hide LaunchFrom, IsReady;
    var new' := v.launches[|w.launches|..];
    if outcome.Started? {
      assert new' == [next.launches[|w.launches|]] + v.launches[|next.launches|..];
    }
    forall i | k <= i < |w.nodes| && v.nodes[i] != w.nodes[i] && launches(w.nodes[i].id).Started?
      ensures exists l <- new' :: l.id == w.nodes[i].id
    {
      if i == k {
        assert new'[0].id == w.nodes[k].id;
      } else {
        assert next.nodes[i] == w.nodes[i];
        var l :| l in v.launches[|next.launches|..] && l.id == w.nodes[i].id;
        assert l in new';
      }
    }
  }

  /** What a tick makes of a node: a running one follows its run, a waiting one may be launched, and
      any other stays exactly as it is. */
  lemma TickOnNode(w: World, env: TickEnv, i: nat)
    requires w.nodes != [] && i < |w.nodes|
    ensures var v, n := TickRunning(w, env), w.nodes[i];
            && |v.nodes| == |w.nodes|
            && (n.status.Running? ==> TickedAs(w, n, v.nodes[i], env))
            && (n.status.Pending? ==>
                  || v.nodes[i] == n
                  || ((forall d <- n.deps :: d in DoneIds(v.nodes)) && LaunchedAs(w, n, v.nodes[i], env.launches(n.id))))
            && (!n.status.Running? && !n.status.Pending? ==> v.nodes[i] == n)
  {
    var settled := SettleAll(w, env);
    SettledNode(w, env, i);
    LoopOnNode(settled, 0, FreeSlots(settled), DoneIds(settled.nodes), env.launches, i);
    TickKeepsDone(settled, env.launches);
    hide LaunchFrom, SettleAll, Stalled, DoneIds;
  }

  lemma FinishEnds(n: GraphNode, runs: Runs, outcome: MergeOutcome)
    requires !n.status.Done?
    ensures EndsAs(n, Finish(n, runs, outcome), n.iteration, runs, outcome)
  {
    assert "merge" <= MERGE_WAITING;
  }

  lemma SettledNode(w: World, env: TickEnv, i: nat)
    requires i < |w.nodes|
    ensures var v, n := SettleAll(w, env), w.nodes[i];
            && |v.nodes| == |w.nodes|
            && (n.status.Running? ==> TickedAs(w, n, v.nodes[i], env) && !v.nodes[i].status.Pending?)
            && (!n.status.Running? ==> v.nodes[i] == n)
            && v.name == w.name && v.useWorktrees == w.useWorktrees
  {
    var n := w.nodes[i];
    if WantsFinish(n, env.runs, w.reviewIterations) {
      FinishEnds(Sync(n, env.runs, w.reviewIterations), env.finishRuns, env.merges(n.id));
    }
    hide Finish;
  }

  lemma TickKeepsDone(w: World, launches: Id -> LaunchOutcome)
    ensures DoneIds(w.nodes) <= DoneIds(LaunchReady(w, launches).nodes)
  {
    var v := LaunchReady(w, launches);
    forall id | id in DoneIds(w.nodes)
      ensures id in DoneIds(v.nodes)
    {
      var i := DoneNode(w.nodes, id);
      LoopOnNode(w, 0, FreeSlots(w), DoneIds(w.nodes), launches, i);
      assert v.nodes[i] in v.nodes;
    }
  }

  /** The node's branch is merged by the tick: its run is done, no review waits, and git merged it. */
  ghost predicate MergesNow(w: World, n: GraphNode, env: TickEnv) {
    && n.status.Running? && n.workspace.Some? && n.workspace.value in env.runs && env.runs[n.workspace.value].status.Done?
    && !w.reviewIterations && n.worktree.Some? && n.branch.Some? && env.merges(n.id).Merged?
  }

  /** A tick adds exactly the merged branches to the base, logs every launch it starts from that base,
      and leaves the graph's settings alone. */
  lemma TickOnGraph(w: World, env: TickEnv)
    requires w.nodes != []
    ensures var v := TickRunning(w, env);
            && v == w.(nodes := v.nodes, launches := v.launches, base := v.base, status := v.status)
            && (forall id :: id in v.base <==> id in w.base || exists n <- w.nodes :: n.id == id && MergesNow(w, n, env))
            && w.launches <= v.launches
            && (forall l <- v.launches[|w.launches|..] :: l.base == v.base && env.launches(l.id).Started?)
            && |v.nodes| == |w.nodes|
            && (forall i :: 0 <= i < |w.nodes| && w.nodes[i].status.Pending? && v.nodes[i].status.Running? ==>
                  exists l <- v.launches[|w.launches|..] :: l.id == w.nodes[i].id)
  {
    var settled := SettleAll(w, env);
    var v := TickRunning(w, env);
    LoopLogs(settled, 0, FreeSlots(settled), DoneIds(settled.nodes), env.launches);
    forall id
      ensures id in settled.base <==> id in w.base || exists n <- w.nodes :: n.id == id && MergesNow(w, n, env)
    {
      SettledBaseId(w, env, id);
    }
    forall i | 0 <= i < |w.nodes| && w.nodes[i].status.Pending? && v.nodes[i].status.Running?
      ensures exists l <- v.launches[|w.launches|..] :: l.id == w.nodes[i].id
    {
      TickOnNode(w, env, i);
      SettledNode(w, env, i);
    }
  }

  lemma SettledBaseId(w: World, env: TickEnv, id: Id)
    ensures id in SettleAll(w, env).base <==> id in w.base || exists n <- w.nodes :: n.id == id && MergesNow(w, n, env)
  {
    forall n | n in w.nodes
      ensures SettleMerges(n, env, w.reviewIterations) <==> MergesNow(w, n, env)
    {
    }
  }

  // ---------- the other steps ----------

  /** Accepting ends the node that the verdict names, unless done, and touches nothing else. */
  lemma AcceptOnNode(w: World, ws: WsId, runs: Runs, merges: Id -> MergeOutcome, i: nat)
    requires i < |w.nodes|
    ensures var v, n := Next(w, AcceptedRun(ws, runs, merges)), w.nodes[i];
            && |v.nodes| == |w.nodes| && v == w.(nodes := v.nodes, base := v.base)
            && (if Names(w, ws, runs, n.id) && !n.status.Done? then EndsAs(n, v.nodes[i], n.iteration, runs, merges(n.id))
                else v.nodes[i] == n)
  {
    var n := w.nodes[i];
    if !n.status.Done? {
      FinishEnds(n, runs, merges(n.id));
    }
    hide Finish, EndsAs;
    NamesLinked(w, ws, runs, n.id);
    hide Names, LinkedNode;
  }

  lemma NamesLinked(w: World, ws: WsId, runs: Runs, id: Id)
    ensures Names(w, ws, runs, id) <==> LinkedNode(w, ws, runs) == Some(id)
  {
  }

  lemma AcceptOnBase(w: World, ws: WsId, runs: Runs, merges: Id -> MergeOutcome, id: Id)
    ensures id in Next(w, AcceptedRun(ws, runs, merges)).base <==>
              id in w.base || exists n <- w.nodes :: n.id == id && Names(w, ws, runs, id) && !n.status.Done?
                                && n.worktree.Some? && n.branch.Some? && merges(id).Merged?
  {
  }

  /** Resuming sends interrupted nodes back to waiting, tries blocked merges again, touches no other
      node, and sets the graph running; without nodes it does nothing. */
  lemma ResumeOnNode(w: World, runs: Runs, merges: Id -> MergeOutcome, i: nat)
    requires i < |w.nodes|
    ensures var v, n := Next(w, AskedResume(runs, merges)), w.nodes[i];
            && |v.nodes| == |w.nodes| && v == w.(nodes := v.nodes, base := v.base, status := GraphState.Running)
            && (if n.status.Interrupted? then v.nodes[i] == n.(status := NodeState.Pending, detail := None)
                else if MergeBlocked(n) then EndsAs(n, v.nodes[i], n.iteration, runs, merges(n.id))
                else v.nodes[i] == n)
  {
    if !w.nodes[i].status.Done? {
      FinishEnds(w.nodes[i], runs, merges(w.nodes[i].id));
    }
    hide Finish, EndsAs;
    var v := Next(w, AskedResume(runs, merges));
    assert v == Resume(w, runs, merges) && w.nodes != [];
    assert v.nodes[i] == ResumeNode(w.nodes[i], runs, merges(w.nodes[i].id));
  }

  lemma ResumeOnBase(w: World, runs: Runs, merges: Id -> MergeOutcome, id: Id)
    ensures id in Next(w, AskedResume(runs, merges)).base <==>
              id in w.base || exists n <- w.nodes :: n.id == id && MergeBlocked(n)
                                && n.worktree.Some? && n.branch.Some? && merges(id).Merged?
    ensures w.nodes == [] ==> Next(w, AskedResume(runs, merges)) == w
  {
  }

  /** Continuing sends the named node from review back to running, and touches nothing else. */
  lemma ContinueOnNode(w: World, ws: WsId, runs: Runs, i: nat)
    requires i < |w.nodes|
    ensures var v, n := Next(w, ContinuedRun(ws, runs)), w.nodes[i];
            && |v.nodes| == |w.nodes| && v == w.(nodes := v.nodes)
            && v.nodes[i] == if Names(w, ws, runs, n.id) && n.status.Review? then n.(status := NodeState.Running, detail := None) else n
  {
  }

  /** A restart interrupts every running or reviewed node, forgetting its workspace, and then pauses a
      running graph. */
  lemma RestartOnNode(w: World, i: nat)
    requires i < |w.nodes|
    ensures var v, n := Next(w, Restarted), w.nodes[i];
            && |v.nodes| == |w.nodes| && v == w.(nodes := v.nodes, status := v.status)
            && (if n.status.Running? || n.status.Review? then
                  v.nodes[i].status.Interrupted? && v.nodes[i].workspace.None?
                  && v.nodes[i] == n.(status := NodeState.Interrupted, workspace := None, detail := v.nodes[i].detail)
                else v.nodes[i] == n)
            && v.status == (if w.status.Running? && (exists m <- w.nodes :: m.status.Running? || m.status.Review?)
                            then GraphState.Paused else w.status)
  {
  }

  /** The nodes of a plan as they start: waiting, without a workspace, branch, report or detail. */
  predicate FreshFrom(plan: seq<ProposalNode>, nodes: seq<GraphNode>) {
    |nodes| == |plan| && forall i :: 0 <= i < |plan| ==>
      nodes[i] == GraphNode(plan[i].id, plan[i].goal, plan[i].deps, NodeState.Pending, None, 0, None, None, None)
  }

  /** A plan found on disk: under review it waits for approval, without review it starts; approved, it
      starts; in any other state, or when it is not acceptable, nothing happens. */
  lemma PlanSteps(w: World, plan: seq<ProposalNode>)
    ensures var v := Next(w, FoundPlan(plan));
            if w.status.Proposing? && Acceptable(plan) then
              if w.review then v == w.(status := GraphState.Proposed)
              else v == w.(status := GraphState.Running, nodes := v.nodes) && FreshFrom(plan, v.nodes)
            else v == w
    ensures var v := Next(w, Approved(plan));
            if (w.status.Proposing? || w.status.Proposed?) && Acceptable(plan) then
              v == w.(status := GraphState.Running, nodes := v.nodes) && FreshFrom(plan, v.nodes)
            else v == w
    ensures Next(w, AskedRevision) == if w.status.Proposing? || w.status.Proposed? then w.(status := GraphState.Proposing) else w
    ensures Next(w, AskedPause) == w.(status := GraphState.Paused) && Next(w, AskedStop) == w.(status := GraphState.Stopped)
  {
  }

  // ---------- who turns a node done ----------

  /** What turned a node done, and the iteration it records: at least its own and its run's, and one of
      the two. */
  ghost predicate DoneBy(w: World, n: GraphNode, s: Step, it: nat) {
    match s
    case Tick(env) =>
      && !w.reviewIterations && n.status.Running? && n.workspace.Some? && n.workspace.value in env.runs
      && env.runs[n.workspace.value].status.Done?
      && IsLater(it, env.runs[n.workspace.value].iteration, env.finishRuns, n.workspace)
    case AcceptedRun(ws, runs, _) => Names(w, ws, runs, n.id) && IsLater(it, n.iteration, runs, n.workspace)
    case AskedResume(runs, _) => MergeBlocked(n) && IsLater(it, n.iteration, runs, n.workspace)
    case _ => false
  }

  /** A node turns done in a step only when a tick without review sees its run done, a human accepts it,
      or a resume retries its blocked merge. */
  lemma TurnsDone(w: World, s: Step, i: nat)
    requires !UnderReview(w) && i < |w.nodes| && !w.nodes[i].status.Done?
    ensures var v := Next(w, s);
            |v.nodes| == |w.nodes| && (v.nodes[i].status.Done? ==> DoneBy(w, w.nodes[i], s, v.nodes[i].iteration))
  {
    match s {
      case Tick(env) => if w.status.Running? { TickOnNode(w, env, i); }
      case AskedResume(runs, merges) => ResumeOnNode(w, runs, merges, i);
      case AcceptedRun(ws, runs, merges) => AcceptOnNode(w, ws, runs, merges, i);
      case ContinuedRun(ws, runs) => ContinueOnNode(w, ws, runs, i);
      case Restarted => RestartOnNode(w, i);
      case _ => PlanSteps(w, []);
    }
  }

  // ---------- under review nothing is done unaccepted ----------

  /** No run blocks for a reason, and no launch fails with an error, that reads like a merge: none of the
      program's own does. */
  ghost predicate NoMergeTalk(s: Step) {
    s.Tick? ==>
      && (forall ws <- s.env.runs :: s.env.runs[ws].status.Blocked? ==> !("merge" <= s.env.runs[ws].status.reason))
      && (forall id :: s.env.launches(id).Failed? ==> !("merge" <= s.env.launches(id).error))
  }

  /** The nodes that the step's verdict accepts. */
  ghost function AcceptedIn(w: World, s: Step): set<Id> {
    if s.AcceptedRun? then set n | n in w.nodes && Names(w, s.ws, s.runs, n.id) :: n.id else {}
  }

  ghost predicate AcceptedBefore(w: World, steps: seq<Step>, id: Id) {
    exists k :: 0 <= k < |steps| && id in AcceptedIn(RunSteps(w, steps[..k]), steps[k])
  }

  /** Every node done, or blocked on its merge, is among those accepted. */
  ghost predicate OnlyAccepted(w: World, accepted: set<Id>) {
    w.reviewIterations && (UnderReview(w) ==> w.nodes == [])
    && forall i :: 0 <= i < |w.nodes| && (w.nodes[i].status.Done? || MergeBlocked(w.nodes[i])) ==> w.nodes[i].id in accepted
  }

  lemma ReviewTick(w: World, env: TickEnv, accepted: set<Id>)
    requires OnlyAccepted(w, accepted) && NoMergeTalk(Tick(env)) && w.status.Running? && w.nodes != []
    ensures OnlyAccepted(TickRunning(w, env), accepted)
  {
    var v := TickRunning(w, env);
    TickOnGraph(w, env);
    TickStatus(w, env);
    forall i | 0 <= i < |w.nodes|
      ensures var n, m := w.nodes[i], v.nodes[i];
              m.id == n.id && (m.status.Done? || MergeBlocked(m) ==> n.status.Done? || MergeBlocked(n))
    {
      TickOnNode(w, env, i);
      hide TickRunning;
    }
  }

  lemma ReviewResume(w: World, runs: Runs, merges: Id -> MergeOutcome, accepted: set<Id>)
    requires OnlyAccepted(w, accepted)
    ensures OnlyAccepted(Next(w, AskedResume(runs, merges)), accepted)
  {
    var v := Next(w, AskedResume(runs, merges));
    hide Resume;
    ResumeOnBase(w, runs, merges, "");
    forall i | 0 <= i < |w.nodes|
      ensures |v.nodes| == |w.nodes| && v.nodes[i].id == w.nodes[i].id
      ensures v.nodes[i].status.Done? || MergeBlocked(v.nodes[i]) ==> w.nodes[i].status.Done? || MergeBlocked(w.nodes[i])
    {
      ResumeOnNode(w, runs, merges, i);
    }
    if w.nodes != [] {
      ResumeOnNode(w, runs, merges, 0);
    }
  }

  lemma ReviewAccept(w: World, ws: WsId, runs: Runs, merges: Id -> MergeOutcome, accepted: set<Id>)
    requires OnlyAccepted(w, accepted)
    ensures OnlyAccepted(Next(w, AcceptedRun(ws, runs, merges)), accepted + AcceptedIn(w, AcceptedRun(ws, runs, merges)))
  {
    var s := AcceptedRun(ws, runs, merges);
    var v := Next(w, s);
    forall i | 0 <= i < |w.nodes|
      ensures |v.nodes| == |w.nodes| && v.nodes[i].id == w.nodes[i].id && (v.nodes[i] == w.nodes[i] || w.nodes[i].id in AcceptedIn(w, s))
    {
      AcceptOnNode(w, ws, runs, merges, i);
      assert w.nodes[i] in w.nodes;
    }
  }

  lemma ReviewStep(w: World, s: Step, accepted: set<Id>)
    requires OnlyAccepted(w, accepted) && NoMergeTalk(s)
    ensures OnlyAccepted(Next(w, s), accepted + AcceptedIn(w, s))
  {
    hide SettleAll, LaunchReady, Resume, Accept, Stalled;
    match s {
      case Tick(env) => if w.status.Running? && w.nodes != [] { ReviewTick(w, env, accepted); }
      case AskedResume(runs, merges) => ReviewResume(w, runs, merges, accepted);
      case AcceptedRun(ws, runs, merges) => ReviewAccept(w, ws, runs, merges, accepted);
      case ContinuedRun(ws, runs) =>
      case Restarted =>
      case FoundPlan(plan) => PlanSteps(w, plan);
      case Approved(plan) => PlanSteps(w, plan);
      case _ => PlanSteps(w, []);
    }
  }

  lemma TickStatus(w: World, env: TickEnv)
    requires w.nodes != [] && w.status.Running?
    ensures !UnderReview(TickRunning(w, env))
  {
    LoopLogs(SettleAll(w, env), 0, FreeSlots(SettleAll(w, env)), DoneIds(SettleAll(w, env).nodes), env.launches);
  }

  lemma {:induction false} ReviewRun(w: World, steps: seq<Step>, accepted: set<Id>) returns (all: set<Id>)
    requires OnlyAccepted(w, accepted) && forall s <- steps :: NoMergeTalk(s)
    ensures OnlyAccepted(RunSteps(w, steps), all)
    ensures forall id <- all :: id in accepted || AcceptedBefore(w, steps, id)
    decreases |steps|
  {
    if steps == [] {
      all := accepted;
    } else {
      var next := Next(w, steps[0]);
      assert steps[0] in steps;
      ReviewStep(w, steps[0], accepted);
      hide OnlyAccepted, NoMergeTalk, AcceptedIn, Next;
      all := ReviewRun(next, steps[1..], accepted + AcceptedIn(w, steps[0]));
      forall id | id in all && id !in accepted
        ensures AcceptedBefore(w, steps, id)
      {
        if id in AcceptedIn(w, steps[0]) {
          assert steps[..0] == [] && RunSteps(w, steps[..0]) == w;
        } else {
          var k :| 0 <= k < |steps[1..]| && id in AcceptedIn(RunSteps(next, steps[1..][..k]), steps[1..][k]);
          RunPrefix(w, steps, k);
          assert steps[k + 1] == steps[1..][k];
        }
      }
    }
  }

  /** Over any run of a graph that reviews its iterations, no node is done that no human accepted. */
  lemma NoneDoneUnaccepted(name: string, cap: nat, review: bool, useWorktrees: bool, steps: seq<Step>, i: nat)
    requires forall s <- steps :: NoMergeTalk(s)
    requires i < |RunSteps(Created(name, cap, review, true, useWorktrees), steps).nodes|
    requires RunSteps(Created(name, cap, review, true, useWorktrees), steps).nodes[i].status.Done?
    ensures var w := Created(name, cap, review, true, useWorktrees);
            AcceptedBefore(w, steps, RunSteps(w, steps).nodes[i].id)
  {
    var w := Created(name, cap, review, true, useWorktrees);
    var all := ReviewRun(w, steps, {});
  }

  /** The condition is needed: a run blocked with "merge it by hand" turns done by a mere resume. */
  lemma MergeTalkSlipsThrough()
    ensures
      var a := NewNode(ProposalNode("a", "x", [])).(status := NodeState.Running, workspace := Some(7), iteration := 1);
      var w := World("g", 1, true, true, false, GraphState.Running, [a], {}, []);
      var runs: Runs := map[7 := RunView(1, GoalStatus.Blocked("merge it by hand"), Some(GraphLink("g", "a")))];
      var env := TickEnv(runs, runs, _ => Merged, _ => Failed("no agent"));
      var steps := [Tick(env), AskedResume(runs, _ => Merged)];
      && |RunSteps(w, steps).nodes| == 1 && RunSteps(w, steps).nodes[0].status.Done?
      && !AcceptedBefore(w, steps, "a")
  {
    var a := NewNode(ProposalNode("a", "x", [])).(status := NodeState.Running, workspace := Some(7), iteration := 1);
    var w := World("g", 1, true, true, false, GraphState.Running, [a], {}, []);
    var runs: Runs := map[7 := RunView(1, GoalStatus.Blocked("merge it by hand"), Some(GraphLink("g", "a")))];
    var env := TickEnv(runs, runs, _ => Merged, _ => Failed("no agent"));
    var steps := [Tick(env), AskedResume(runs, _ => Merged)];
    var ticked := Next(w, steps[0]);
    TickOnNode(w, env, 0);
    assert "merge" <= "merge it by hand";
    assert MergeBlocked(ticked.nodes[0]);
    ResumeOnNode(ticked, runs, _ => Merged, 0);
    assert steps[1..] == [steps[1]] && [steps[1]][1..] == [];
    assert RunSteps(w, steps) == RunSteps(ticked, [steps[1]]) == RunSteps(Next(ticked, steps[1]), []);
  }

  // ---------- exactly when that can fail ----------

  ghost predicate DoneAccepted(w: World, accepted: set<Id>) {
    forall i :: 0 <= i < |w.nodes| && w.nodes[i].status.Done? ==> w.nodes[i].id in accepted
  }

  /** The retry leaves the node blocked. */
  predicate HeldBack(n: GraphNode, outcome: MergeOutcome) {
    n.worktree.Some? && n.branch.Some? && (outcome.Conflict? || outcome.BaseDirty?)
  }

  /** A resume retries the merge of a node that no human accepted, and it goes through. */
  ghost predicate Slips(w: World, s: Step, accepted: set<Id>) {
    && s.AskedResume?
    && exists i :: 0 <= i < |w.nodes| && MergeBlocked(w.nodes[i])
         && !HeldBack(w.nodes[i], s.merges(w.nodes[i].id)) && w.nodes[i].id !in accepted
  }

  /** A graph that reviews its iterations, and has no nodes while its plan is under review. */
  ghost predicate Reviewing(w: World) {
    w.reviewIterations && (UnderReview(w) ==> w.nodes == [])
  }

  lemma SlipsOnResume(w: World, runs: Runs, merges: Id -> MergeOutcome, accepted: set<Id>)
    requires Reviewing(w) && DoneAccepted(w, accepted)
    ensures Reviewing(Next(w, AskedResume(runs, merges)))
    ensures DoneAccepted(Next(w, AskedResume(runs, merges)), accepted) <==> !Slips(w, AskedResume(runs, merges), accepted)
  {
    var v := Next(w, AskedResume(runs, merges));
    hide Resume, HeldBack;
    ResumeOnBase(w, runs, merges, "");
    forall i | 0 <= i < |w.nodes|
      ensures |v.nodes| == |w.nodes| && v.nodes[i].id == w.nodes[i].id && v == w.(nodes := v.nodes, base := v.base, status := GraphState.Running)
      ensures v.nodes[i].status.Done? <==> w.nodes[i].status.Done? || (MergeBlocked(w.nodes[i]) && !HeldBack(w.nodes[i], merges(w.nodes[i].id)))
    {
      ResumeEnds(w, runs, merges, i);
    }
    if w.nodes != [] {
      ResumeEnds(w, runs, merges, 0);
    }
  }

  lemma ResumeEnds(w: World, runs: Runs, merges: Id -> MergeOutcome, i: nat)
    requires i < |w.nodes|
    ensures var v := Next(w, AskedResume(runs, merges));
            && |v.nodes| == |w.nodes| && v.nodes[i].id == w.nodes[i].id && v == w.(nodes := v.nodes, base := v.base, status := GraphState.Running)
            && (v.nodes[i].status.Done? <==> w.nodes[i].status.Done? || (MergeBlocked(w.nodes[i]) && !HeldBack(w.nodes[i], merges(w.nodes[i].id))))
  {
    ResumeOnNode(w, runs, merges, i);
    hide Resume;
  }

  lemma SlipsOnStep(w: World, s: Step, accepted: set<Id>)
    requires Reviewing(w) && DoneAccepted(w, accepted)
    ensures Reviewing(Next(w, s))
    ensures DoneAccepted(Next(w, s), accepted + AcceptedIn(w, s)) <==> !Slips(w, s, accepted)
  {
    if s.AskedResume? {
      SlipsOnResume(w, s.runs, s.merges, accepted);
      assert accepted + AcceptedIn(w, s) == accepted;
    } else {
      OthersHold(w, s, accepted);
    }
  }

  lemma OthersHold(w: World, s: Step, accepted: set<Id>)
    requires Reviewing(w) && DoneAccepted(w, accepted) && !s.AskedResume?
    ensures Reviewing(Next(w, s)) && DoneAccepted(Next(w, s), accepted + AcceptedIn(w, s))
  {
    hide SettleAll, LaunchReady, Accept, Stalled;
    match s {
      case Tick(env) =>
        if w.status.Running? && w.nodes != [] {
          TickOnGraph(w, env);
          TickStatus(w, env);
          forall i | 0 <= i < |w.nodes|
            ensures var m := TickRunning(w, env).nodes[i]; m.id == w.nodes[i].id && (m.status.Done? ==> w.nodes[i].status.Done?)
          {
            TickOnNode(w, env, i);
            hide TickRunning;
          }
        }
      case AcceptedRun(ws, runs, merges) => AcceptHolds(w, ws, runs, merges, accepted);
      case ContinuedRun(ws, runs) =>
      case Restarted =>
      case FoundPlan(plan) => PlanSteps(w, plan);
      case Approved(plan) => PlanSteps(w, plan);
      case _ => PlanSteps(w, []);
    }
  }

  lemma AcceptHolds(w: World, ws: WsId, runs: Runs, merges: Id -> MergeOutcome, accepted: set<Id>)
    requires Reviewing(w) && DoneAccepted(w, accepted)
    ensures var s := AcceptedRun(ws, runs, merges); Reviewing(Next(w, s)) && DoneAccepted(Next(w, s), accepted + AcceptedIn(w, s))
  {
    var s := AcceptedRun(ws, runs, merges);
    var v := Next(w, s);
    forall i | 0 <= i < |w.nodes|
      ensures |v.nodes| == |w.nodes| && v.nodes[i].id == w.nodes[i].id && (v.nodes[i] == w.nodes[i] || w.nodes[i].id in AcceptedIn(w, s))
    {
      AcceptOnNode(w, ws, runs, merges, i);
      assert w.nodes[i] in w.nodes;
    }
  }

  /** In every state of the run, only nodes accepted by then are done. */
  ghost predicate AlwaysAccepted(w: World, steps: seq<Step>, accepted: set<Id>)
    decreases |steps|
  {
    DoneAccepted(w, accepted)
    && (steps == [] || AlwaysAccepted(Next(w, steps[0]), steps[1..], accepted + AcceptedIn(w, steps[0])))
  }

  ghost predicate NeverSlips(w: World, steps: seq<Step>, accepted: set<Id>)
    decreases |steps|
  {
    steps == [] || (!Slips(w, steps[0], accepted) && NeverSlips(Next(w, steps[0]), steps[1..], accepted + AcceptedIn(w, steps[0])))
  }

  /** Under review, only accepted nodes are ever done, exactly when no resume retries, with success, the
      merge of a node that no human accepted. */
  lemma {:induction false} ReviewHoldsIff(w: World, steps: seq<Step>, accepted: set<Id>)
    requires w.reviewIterations && (UnderReview(w) ==> w.nodes == []) && DoneAccepted(w, accepted)
    ensures AlwaysAccepted(w, steps, accepted) <==> NeverSlips(w, steps, accepted)
    decreases |steps|
  {
    if steps != [] {
      SlipsOnStep(w, steps[0], accepted);
      if !Slips(w, steps[0], accepted) {
        hide Next, AcceptedIn, DoneAccepted, Slips;
        ReviewHoldsIff(Next(w, steps[0]), steps[1..], accepted + AcceptedIn(w, steps[0]));
      }
    }
  }

  // ---------- the report a launch refers to ----------

  lemma {:induction false} RunSplit(w: World, steps: seq<Step>, k: nat)
    requires k <= |steps|
    ensures RunSteps(w, steps) == RunSteps(RunSteps(w, steps[..k]), steps[k..])
    ensures StepsOk(w, steps) ==> StepsOk(RunSteps(w, steps[..k]), steps[k..]) && StepsOk(w, steps[..k])
    decreases |steps|
  {
    if k == 0 {
      assert steps[..0] == [] && steps[0..] == steps;
    } else {
      RunSplit(Next(w, steps[0]), steps[1..], k - 1);
      assert steps[..k][1..] == steps[1..][..k - 1] && steps[k..] == steps[1..][k - 1..];
    }
  }

  /** The report behind each reference of each launch: the node it names turned done in some step, at an
      iteration no earlier than its run was at, and that is the iteration the launch refers to. */
  lemma LaunchRefersToReport(w: World, steps: seq<Step>, l: Launch, r: nat) returns (i: nat, k: nat)
    requires Inv(w) && w.nodes != [] && StepsOk(w, steps) && (forall n <- w.nodes :: !n.status.Done?)
    requires l in RunSteps(w, steps).launches && r < |l.refs|
    ensures k < |steps| && i < |w.nodes| && w.nodes[i].id == l.refs[r].0
    ensures var before, after := RunSteps(w, steps[..k]), RunSteps(w, steps[..k + 1]);
            && |before.nodes| == |after.nodes| == |w.nodes| && !before.nodes[i].status.Done? && after.nodes[i].status.Done?
            && after.nodes[i].iteration == l.refs[r].1
            && DoneBy(before, before.nodes[i], steps[k], l.refs[r].1)
  {
    var v := RunSteps(w, steps);
    RunInv(w, steps);
    i := ReferredNode(v, l, r);
    SameIds(w, v, i);
    assert w.nodes[i] in w.nodes;
    k := FinishesInOrder(w, steps, i);
    StaysDone(w, steps, k, i);
  }

  lemma ReferredNode(v: World, l: Launch, r: nat) returns (i: nat)
    requires Inv(v) && l in v.launches && r < |l.refs|
    ensures i < |v.nodes| && v.nodes[i].id == l.refs[r].0 && v.nodes[i].status.Done? && v.nodes[i].iteration == l.refs[r].1
  {
    var k :| 0 <= k < |v.launches| && v.launches[k] == l;
    assert LaunchInv(v.nodes, v.useWorktrees, v.launches[k]);
    assert FinalReport(v.nodes, l.refs[r]);
    i :| 0 <= i < |v.nodes| && v.nodes[i].id == l.refs[r].0 && v.nodes[i].status.Done? && v.nodes[i].iteration == l.refs[r].1;
  }

  lemma StaysDone(w: World, steps: seq<Step>, k: nat, i: nat)
    requires Inv(w) && w.nodes != [] && StepsOk(w, steps) && k < |steps| && i < |w.nodes|
    requires var before, after := RunSteps(w, steps[..k]), RunSteps(w, steps[..k + 1]);
             && |before.nodes| == |after.nodes| == |w.nodes|
             && !before.nodes[i].status.Done? && after.nodes[i].status.Done?
    ensures var before, after := RunSteps(w, steps[..k]), RunSteps(w, steps[..k + 1]);
            && |RunSteps(w, steps).nodes| == |w.nodes| && RunSteps(w, steps).nodes[i] == after.nodes[i]
            && DoneBy(before, before.nodes[i], steps[k], after.nodes[i].iteration)
  {
    var before, after := RunSteps(w, steps[..k]), RunSteps(w, steps[..k + 1]);
    RunSplit(w, steps, k);
    RunSplit(w, steps, k + 1);
    RunSplit(w, steps[..k + 1], k);
    assert steps[..k + 1][..k] == steps[..k] && steps[..k + 1][k..] == [steps[k]] && [steps[k]][1..] == [];
    assert after == RunSteps(Next(before, steps[k]), []);
    RunInv(w, steps[..k]);
    RunInv(w, steps[..k + 1]);
    RunInv(after, steps[k + 1..]);
    NotUnderReview(before);
    hide Inv, StepsOk, RunSteps;
    TurnsDone(before, steps[k], i);
  }

  lemma NotUnderReview(w: World)
    requires Inv(w) && w.nodes != []
    ensures !UnderReview(w)
  {
  }
}
