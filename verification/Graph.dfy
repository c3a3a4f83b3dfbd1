// The goal graph as a value, and what each scheduler or human step makes of it.
module Graph {
  import opened Common
  import opened Proposal

  type WsId = nat

  datatype GoalStatus = Running | NeedsAttention(reason: string) | Done | Blocked(reason: string)

  /** Ties a goal run to the graph node it executes. */
  datatype GraphLink = GraphLink(graph: string, node: Id)

  /** What the scheduler reads of a registered goal run. */
  datatype RunView = RunView(iteration: nat, status: GoalStatus, link: Option<GraphLink>)

  type Runs = map<WsId, RunView>

  datatype NodeState = Pending | Running | Review | Done | Blocked | Interrupted

  datatype GraphState = Proposing | Proposed | Running | Complete | Paused | Stopped

  datatype GraphNode = GraphNode(
    id: Id,
    goal: string,
    deps: seq<Id>,
    status: NodeState,
    workspace: Option<WsId>,
    iteration: nat,
    branch: Option<string>,
    worktree: Option<string>,
    detail: Option<string>)

  /** How `git status` and `git merge` answered for one finished node. */
  datatype MergeOutcome = Merged | Conflict(error: string) | BaseDirty

  /** How launching one node went; a started run normally reports its workspace. */
  datatype LaunchOutcome = Started(workspace: Option<WsId>) | Failed(error: string)

  /** One launch handed to the goal driver: the reports it references (dependency and iteration)
      and the nodes whose branches the base checkout had merged at that moment. */
  datatype Launch = Launch(id: Id, refs: seq<(Id, nat)>, base: set<Id>)

  datatype World = World(
    name: string,
    maxConcurrency: nat,
    review: bool,
    reviewIterations: bool,
    useWorktrees: bool,
    status: GraphState,
    nodes: seq<GraphNode>,
    base: set<Id>,           // nodes merged into the base checkout's history
    launches: seq<Launch>)   // every launch so far, oldest first

  /** What the surroundings answer during one scheduler tick. Runs are read twice: once by the
      sync pass, and again when a node is finished. */
  datatype TickEnv = TickEnv(
    runs: Runs,
    finishRuns: Runs,
    merges: Id -> MergeOutcome,
    launches: Id -> LaunchOutcome)

  // ---------- nodes ----------

  function NewNode(p: ProposalNode): GraphNode {
    GraphNode(p.id, p.goal, p.deps, NodeState.Pending, None, 0, None, None, None)
  }

  predicate IsActive(n: GraphNode) {
    n.status.Running? || n.status.Review?
  }

  predicate IsMergeDetail(detail: Option<string>) {
    detail.Some? && "merge" <= detail.value
  }

  const MERGE_WAITING := "merge" + " waiting: your checkout has uncommitted changes"

  function BranchName(graph: string, id: Id): string {
    "graph/" + graph + "/" + id
  }

  /** The worktree's path, as the suffix it adds to the base directory. */
  function WorktreeSuffix(id: Id): string {
    "-worktrees/" + id
  }

  function NodeAt(nodes: seq<GraphNode>, id: Id): Option<GraphNode> {
    if nodes == [] then None else if nodes[0].id == id then Some(nodes[0]) else NodeAt(nodes[1..], id)
  }

  function DoneIds(nodes: seq<GraphNode>): set<Id> {
    set n | n in nodes && n.status.Done? :: n.id
  }

  function ActiveSet(nodes: seq<GraphNode>): set<nat> {
    set i | 0 <= i < |nodes| && IsActive(nodes[i])
  }

  function ActiveCount(nodes: seq<GraphNode>): nat {
    |ActiveSet(nodes)|
  }

  predicate DepsIn(n: GraphNode, done: set<Id>) {
    forall d <- n.deps :: d in done
  }

  predicate IsReady(n: GraphNode, done: set<Id>) {
    n.status.Pending? && DepsIn(n, done)
  }

  ghost predicate DistinctNodeIds(nodes: seq<GraphNode>) {
    forall i, j :: 0 <= i < j < |nodes| ==> nodes[i].id != nodes[j].id
  }

  // ---------- finishing and syncing one node ----------

  function FinishIteration(n: GraphNode, runs: Runs): nat {
    if n.workspace.Some? && n.workspace.value in runs && runs[n.workspace.value].iteration > n.iteration
    then runs[n.workspace.value].iteration
    else n.iteration
  }

  predicate HasWorktree(n: GraphNode) {
    n.worktree.Some? && n.branch.Some?
  }

  function Finish(n: GraphNode, runs: Runs, outcome: MergeOutcome): GraphNode {
    if n.status.Done? then n else
    var m := n.(iteration := FinishIteration(n, runs));
    if HasWorktree(n) && outcome.Conflict? then
      m.(status := NodeState.Blocked, detail := Some("merge conflict: " + outcome.error))
    else if HasWorktree(n) && outcome.BaseDirty? then
      m.(status := NodeState.Blocked, detail := Some(MERGE_WAITING))
    else
      m.(status := NodeState.Done, detail := None)
  }

  /** Whether finishing the node adds its branch to the base. */
  predicate FinishMerges(n: GraphNode, outcome: MergeOutcome) {
    !n.status.Done? && HasWorktree(n) && outcome.Merged?
  }

  predicate RunIsGone(n: GraphNode, runs: Runs) {
    n.workspace.None? || n.workspace.value !in runs
  }

  /** The node's run is done and no human has to accept it first. */
  predicate WantsFinish(n: GraphNode, runs: Runs, reviewIterations: bool) {
    n.status.Running? && !RunIsGone(n, runs) && runs[n.workspace.value].status.Done? && !reviewIterations
  }

  /** One node after the first pass of the sync: its run's state reflected into it. */
  function Sync(n: GraphNode, runs: Runs, reviewIterations: bool): GraphNode {
    if !n.status.Running? then n
    else if n.workspace.None? then
      n.(status := NodeState.Interrupted, detail := Some("no workspace to watch"))
    else if n.workspace.value !in runs then
      n.(status := NodeState.Interrupted, detail := Some("its workspace was closed, or jmux restarted"))
    else
      var run := runs[n.workspace.value];
      var m := n.(iteration := run.iteration);
      match run.status
      case Done => if reviewIterations then m.(status := NodeState.Review) else m
      case Blocked(reason) => m.(status := NodeState.Blocked, detail := Some(reason))
      case _ => m
  }

  /** One node after the whole sync: finished too, when its run calls for it. */
  function Settle(n: GraphNode, env: TickEnv, reviewIterations: bool): GraphNode {
    var m := Sync(n, env.runs, reviewIterations);
    if WantsFinish(n, env.runs, reviewIterations) then Finish(m, env.finishRuns, env.merges(n.id)) else m
  }

  predicate SettleMerges(n: GraphNode, env: TickEnv, reviewIterations: bool) {
    && WantsFinish(n, env.runs, reviewIterations)
    && FinishMerges(Sync(n, env.runs, reviewIterations), env.merges(n.id))
  }

  function SettleAll(w: World, env: TickEnv): World {
    w.(nodes := seq(|w.nodes|, i requires 0 <= i < |w.nodes| => Settle(w.nodes[i], env, w.reviewIterations)),
       base := w.base + (set n | n in w.nodes && SettleMerges(n, env, w.reviewIterations) :: n.id))
  }

  // ---------- launching ----------

  /** The report references of a launch: every dependency that has an iteration. */
  function UpstreamRefs(nodes: seq<GraphNode>, deps: seq<Id>): seq<(Id, nat)> {
    if deps == [] then []
    else
      var dep := NodeAt(nodes, deps[0]);
      (if dep.Some? && dep.value.iteration > 0 then [(deps[0], dep.value.iteration)] else [])
      + UpstreamRefs(nodes, deps[1..])
  }

  function LaunchedNode(w: World, n: GraphNode, outcome: LaunchOutcome): GraphNode {
    match outcome
    case Started(ws) =>
      n.(status := NodeState.Running, workspace := ws, detail := None,
         branch := if w.useWorktrees then Some(BranchName(w.name, n.id)) else None,
         worktree := if w.useWorktrees then Some(WorktreeSuffix(n.id)) else None)
    case Failed(e) =>
      n.(status := NodeState.Blocked, detail := Some(e))
  }

  function LaunchOne(w: World, i: nat, outcome: LaunchOutcome): World
    requires i < |w.nodes|
  {
    var n := w.nodes[i];
    w.(nodes := w.nodes[i := LaunchedNode(w, n, outcome)],
       launches := if outcome.Started? then w.launches + [Launch(n.id, UpstreamRefs(w.nodes, n.deps), w.base)]
                   else w.launches)
  }

  /** Go through the nodes from position `k`, launching those found ready while slots last. */
  function LaunchFrom(w: World, k: nat, slots: nat, done: set<Id>, launches: Id -> LaunchOutcome): World
    requires k <= |w.nodes|
    decreases |w.nodes| - k
  {
    if k == |w.nodes| || slots == 0 then w
    else if !IsReady(w.nodes[k], done) then LaunchFrom(w, k + 1, slots, done, launches)
    else
      var outcome := launches(w.nodes[k].id);
      LaunchFrom(LaunchOne(w, k, outcome), k + 1, if outcome.Started? then slots - 1 else slots, done, launches)
  }

  function FreeSlots(w: World): nat {
    if ActiveCount(w.nodes) <= w.maxConcurrency then w.maxConcurrency - ActiveCount(w.nodes) else 0
  }

  function LaunchReady(w: World, launches: Id -> LaunchOutcome): World {
    LaunchFrom(w, 0, FreeSlots(w), DoneIds(w.nodes), launches)
  }

  // ---------- the steps ----------

  predicate Stalled(w: World, done: set<Id>) {
    && (exists n <- w.nodes :: IsActive(n) || n.status.Pending?)
    && !(exists n <- w.nodes :: IsActive(n) || IsReady(n, done))
  }

  function TickRunning(w: World, env: TickEnv): World {
    if w.nodes == [] then w.(status := GraphState.Proposing)
    else
      var settled := SettleAll(w, env);
      if forall n <- settled.nodes :: n.status.Done? then settled.(status := GraphState.Complete)
      else
        var launched := LaunchReady(settled, env.launches);
        if Stalled(launched, DoneIds(settled.nodes)) then launched.(status := GraphState.Paused) else launched
  }

  predicate UnderReview(w: World) {
    w.status.Proposing? || w.status.Proposed?
  }

  ghost function StartPlan(w: World, plan: seq<ProposalNode>): World {
    w.(status := GraphState.Running, nodes := seq(|plan|, i requires 0 <= i < |plan| => NewNode(plan[i])))
  }

  /** A plan was found on disk while the graph waited for one. */
  ghost function TickProposing(w: World, plan: seq<ProposalNode>): World {
    if !Acceptable(plan) then w
    else if w.review then w.(status := GraphState.Proposed)
    else StartPlan(w, plan)
  }

  ghost function Approve(w: World, plan: seq<ProposalNode>): World {
    if UnderReview(w) && Acceptable(plan) then StartPlan(w, plan) else w
  }

  function Revise(w: World): World {
    if UnderReview(w) then w.(status := GraphState.Proposing) else w
  }

  predicate RetriesMerge(n: GraphNode) {
    n.status.Blocked? && IsMergeDetail(n.detail)
  }

  function ResumeNode(n: GraphNode, runs: Runs, outcome: MergeOutcome): GraphNode {
    if n.status.Interrupted? then n.(status := NodeState.Pending, detail := None)
    else if RetriesMerge(n) then Finish(n, runs, outcome)
    else n
  }

  function Resume(w: World, runs: Runs, merges: Id -> MergeOutcome): World {
    if w.nodes == [] then w
    else
      w.(status := GraphState.Running,
         nodes := seq(|w.nodes|, i requires 0 <= i < |w.nodes| => ResumeNode(w.nodes[i], runs, merges(w.nodes[i].id))),
         base := w.base + (set n | n in w.nodes && RetriesMerge(n) && FinishMerges(n, merges(n.id)) :: n.id))
  }

  /** The node a human verdict on workspace `ws` is about, if its run belongs to this graph. */
  function LinkedNode(w: World, ws: WsId, runs: Runs): Option<Id> {
    if ws in runs && runs[ws].link.Some? && runs[ws].link.value.graph == w.name
    then Some(runs[ws].link.value.node)
    else None
  }

  function FinishById(w: World, id: Id, runs: Runs, outcome: MergeOutcome): World {
    w.(nodes := seq(|w.nodes|, i requires 0 <= i < |w.nodes| =>
                    if w.nodes[i].id == id then Finish(w.nodes[i], runs, outcome) else w.nodes[i]),
       base := w.base + (set n | n in w.nodes && n.id == id && FinishMerges(n, outcome) :: n.id))
  }

  function Accept(w: World, ws: WsId, runs: Runs, merges: Id -> MergeOutcome): World {
    var id := LinkedNode(w, ws, runs);
    if id.None? then w else FinishById(w, id.value, runs, merges(id.value))
  }

  function ContinueNode(n: GraphNode): GraphNode {
    if n.status.Review? then n.(status := NodeState.Running, detail := None) else n
  }

  function Continue(w: World, ws: WsId, runs: Runs): World {
    var id := LinkedNode(w, ws, runs);
    w.(nodes := seq(|w.nodes|, i requires 0 <= i < |w.nodes| =>
                    if id == Some(w.nodes[i].id) then ContinueNode(w.nodes[i]) else w.nodes[i]))
  }

  function RestartNode(n: GraphNode): GraphNode {
    if IsActive(n) then
      n.(status := NodeState.Interrupted, detail := Some("interrupted by a restart"), workspace := None)
    else n
  }

  function Restart(w: World): World {
    w.(nodes := seq(|w.nodes|, i requires 0 <= i < |w.nodes| => RestartNode(w.nodes[i])),
       status := if w.status.Running? && exists n <- w.nodes :: IsActive(n) then GraphState.Paused else w.status)
  }

  datatype Step =
    | FoundPlan(plan: seq<ProposalNode>)
    | Approved(plan: seq<ProposalNode>)
    | AskedRevision
    | Tick(env: TickEnv)
    | AskedPause
    | AskedStop
    | AskedResume(runs: Runs, merges: Id -> MergeOutcome)
    | AcceptedRun(ws: WsId, runs: Runs, merges: Id -> MergeOutcome)
    | ContinuedRun(ws: WsId, runs: Runs)
    | Restarted

  /** One atomic step; the scheduler only acts on graphs that wait for a plan or run one. */
  ghost function Next(w: World, s: Step): World {
    match s
    case FoundPlan(plan) => if w.status.Proposing? then TickProposing(w, plan) else w
    case Approved(plan) => Approve(w, plan)
    case AskedRevision => Revise(w)
    case Tick(env) => if w.status.Running? then TickRunning(w, env) else w
    case AskedPause => w.(status := GraphState.Paused)
    case AskedStop => w.(status := GraphState.Stopped)
    case AskedResume(runs, merges) => Resume(w, runs, merges)
    case AcceptedRun(ws, runs, merges) => Accept(w, ws, runs, merges)
    case ContinuedRun(ws, runs) => Continue(w, ws, runs)
    case Restarted => Restart(w)
  }
}
