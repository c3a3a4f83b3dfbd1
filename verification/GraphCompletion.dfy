// A graph in which nothing fails completes, launching each node exactly once.
module GraphCompletion {
  import opened Common
  import opened Dag
  import Proposal
  import opened Graph
  import opened GraphSafety
  import opened GraphProgress

  // ---------- the measure ----------

  function Weight(n: GraphNode): nat {
    if n.status.Pending? then 2 else if n.status.Running? then 1 else 0
  }

  function Rank(nodes: seq<GraphNode>): nat {
    if nodes == [] then 0 else Weight(nodes[0]) + Rank(nodes[1..])
  }

  lemma {:induction false} RankUpdate(nodes: seq<GraphNode>, k: nat, n: GraphNode)
    requires k < |nodes|
    ensures Rank(nodes[k := n]) + Weight(nodes[k]) == Rank(nodes) + Weight(n)
  {
    if k == 0 {
      assert nodes[k := n][1..] == nodes[1..];
    } else {
      assert nodes[k := n][1..] == nodes[1..][k - 1 := n];
      RankUpdate(nodes[1..], k - 1, n);
    }
  }

  lemma {:induction false} RankFallsWith(a: seq<GraphNode>, b: seq<GraphNode>)
    requires |a| == |b| && forall i :: 0 <= i < |a| ==> Weight(b[i]) <= Weight(a[i])
    ensures Rank(b) <= Rank(a)
    ensures (exists i :: 0 <= i < |a| && Weight(b[i]) < Weight(a[i])) ==> Rank(b) < Rank(a)
  {
    if a != [] {
      RankFallsWith(a[1..], b[1..]);
      if i :| 0 <= i < |a| && Weight(b[i]) < Weight(a[i]) {
        if i > 0 {
          assert Weight(b[1..][i - 1]) < Weight(a[1..][i - 1]);
        }
      }
    }
  }

  // ---------- graphs and surroundings without failures ----------

  ghost predicate Healthy(nodes: seq<GraphNode>) {
    forall i :: 0 <= i < |nodes| ==>
      && (nodes[i].status.Pending? || nodes[i].status.Running? || nodes[i].status.Done?)
      && (nodes[i].status.Running? ==> nodes[i].workspace.Some?)
  }

  ghost predicate WasLaunched(launches: seq<Launch>, id: Id) {
    exists k :: 0 <= k < |launches| && launches[k].id == id
  }

  /** No node was launched twice, and exactly the nodes past waiting were launched. */
  ghost predicate LaunchedOnce(nodes: seq<GraphNode>, launches: seq<Launch>) {
    && (forall j, k :: 0 <= j < k < |launches| ==> launches[j].id != launches[k].id)
    && (forall i :: 0 <= i < |nodes| ==> (WasLaunched(launches, nodes[i].id) <==> !nodes[i].status.Pending?))
  }

  ghost predicate FailureFree(w: World) {
    && Inv(w) && !w.reviewIterations && w.maxConcurrency >= 1 && w.nodes != []
    && (w.status.Running? || w.status.Complete?)
    && (w.status.Complete? ==> AllDone(w.nodes))
    && Healthy(w.nodes) && LaunchedOnce(w.nodes, w.launches)
  }

  ghost predicate NoRunFails(nodes: seq<GraphNode>, runs: Runs) {
    forall i :: 0 <= i < |nodes| && nodes[i].status.Running? && nodes[i].workspace.Some? ==>
      nodes[i].workspace.value in runs && !runs[nodes[i].workspace.value].status.Blocked?
  }

  ghost predicate LaunchesSucceed(launches: Id -> LaunchOutcome) {
    forall id :: launches(id).Started? && launches(id).workspace.Some?
  }

  /** Every launch starts, every merge goes through and no run is lost or blocked. */
  ghost predicate Smooth(w: World, env: TickEnv) {
    && EnvOk(env)
    && LaunchesSucceed(env.launches)
    && (forall id :: env.merges(id).Merged?)
    && NoRunFails(w.nodes, env.runs)
  }

  /** The tick sees some node's run finished. */
  ghost predicate SeesFinish(w: World, env: TickEnv) {
    w.status.Running? && exists i :: 0 <= i < |w.nodes| && WantsFinish(w.nodes[i], env.runs, w.reviewIterations)
  }

  // ---------- one tick ----------

  lemma SettleHealthy(w: World, env: TickEnv)
    requires FailureFree(w) && w.status.Running? && Smooth(w, env)
    ensures var v := SettleAll(w, env);
            && Healthy(v.nodes) && LaunchedOnce(v.nodes, v.launches)
            && Rank(v.nodes) <= Rank(w.nodes)
            && (SeesFinish(w, env) ==> Rank(v.nodes) < Rank(w.nodes))
  {
    hide Inv, EnvOk;
    var v := SettleAll(w, env);
    forall i | 0 <= i < |w.nodes|
      ensures v.nodes[i].id == w.nodes[i].id
      ensures v.nodes[i].status == w.nodes[i].status || (w.nodes[i].status.Running? && v.nodes[i].status.Done?)
      ensures v.nodes[i].workspace == w.nodes[i].workspace
      ensures WantsFinish(w.nodes[i], env.runs, w.reviewIterations) ==> v.nodes[i].status.Done?
    {
      assert env.merges(w.nodes[i].id).Merged?;
    }
    RankFallsWith(w.nodes, v.nodes);
    if SeesFinish(w, env) {
      var i :| 0 <= i < |w.nodes| && WantsFinish(w.nodes[i], env.runs, w.reviewIterations);
      assert Weight(v.nodes[i]) < Weight(w.nodes[i]);
    }
  }

  lemma LaunchOneOnce(w: World, k: nat, outcome: LaunchOutcome)
    requires DistinctNodeIds(w.nodes) && k < |w.nodes| && w.nodes[k].status.Pending?
    requires outcome.Started? && outcome.workspace.Some?
    requires Healthy(w.nodes) && LaunchedOnce(w.nodes, w.launches)
    ensures var v := LaunchOne(w, k, outcome);
            && DistinctNodeIds(v.nodes) && Healthy(v.nodes) && LaunchedOnce(v.nodes, v.launches)
            && Rank(v.nodes) + 1 == Rank(w.nodes)
  {
    var v := LaunchOne(w, k, outcome);
    RankUpdate(w.nodes, k, v.nodes[k]);
    var n := w.nodes[k];
    assert !WasLaunched(w.launches, n.id);
    assert v.launches[|w.launches|].id == n.id;
    forall i | 0 <= i < |v.nodes|
      ensures WasLaunched(v.launches, v.nodes[i].id) <==> !v.nodes[i].status.Pending?
    {
      if i != k {
        assert v.nodes[i] == w.nodes[i] && w.nodes[i].id != n.id;
        if WasLaunched(w.launches, w.nodes[i].id) {
          var j :| 0 <= j < |w.launches| && w.launches[j].id == w.nodes[i].id;
          assert v.launches[j].id == w.nodes[i].id;
        }
      }
    }
  }

  /** Every launch lowers the rank by one, and nothing else in the loop changes it. */
  lemma {:induction false} LaunchFromOnce(w: World, k: nat, slots: nat, done: set<Id>, launches: Id -> LaunchOutcome)
    returns (v: World)
    requires DistinctNodeIds(w.nodes) && k <= |w.nodes|
    requires LaunchesSucceed(launches) && Healthy(w.nodes) && LaunchedOnce(w.nodes, w.launches)
    ensures v == LaunchFrom(w, k, slots, done, launches)
    ensures Healthy(v.nodes) && LaunchedOnce(v.nodes, v.launches)
    ensures Rank(v.nodes) + |v.launches| == Rank(w.nodes) + |w.launches|
    decreases |w.nodes| - k
  {
    hide Healthy, LaunchedOnce, DistinctNodeIds;
    if k == |w.nodes| || slots == 0 {
      v := w;
    } else if !IsReady(w.nodes[k], done) {
      v := LaunchFromOnce(w, k + 1, slots, done, launches);
    } else {
      var outcome := launches(w.nodes[k].id);
      LaunchOneOnce(w, k, outcome);
      v := LaunchFromOnce(LaunchOne(w, k, outcome), k + 1, slots - 1, done, launches);
    }
  }

  lemma NoneStopped(nodes: seq<GraphNode>, i: nat)
    requires DistinctNodeIds(nodes) && Healthy(nodes) && i < |nodes|
    ensures !WaitsOnStopped(nodes, nodes[i].id)
  {
  }

  lemma HealthyRest(nodes: seq<GraphNode>)
    requires Healthy(nodes) && !AnyActive(nodes) && !AnyPending(nodes)
    ensures AllDone(nodes)
  {
  }

  lemma SettledFree(w: World, env: TickEnv)
    requires FailureFree(w) && w.status.Running? && Smooth(w, env)
    ensures var v := TickRunning(w, env);
            && Healthy(v.nodes) && LaunchedOnce(v.nodes, v.launches)
            && Rank(v.nodes) <= Rank(w.nodes)
            && (SeesFinish(w, env) || |v.launches| > |w.launches| ==> Rank(v.nodes) < Rank(w.nodes))
  {
    SettleHealthy(w, env);
    SettledDistinct(w, env);
    SmoothFacts(w, env);
    FreeFacts(w);
    hide Inv, FailureFree, Smooth, Healthy, LaunchedOnce, SeesFinish, EnvOk, LaunchesSucceed, DistinctNodeIds, Rank, LaunchFrom;
    FromSettled(w, env);
  }

  lemma SettledDistinct(w: World, env: TickEnv)
    requires FailureFree(w) && w.status.Running? && Smooth(w, env)
    ensures DistinctNodeIds(SettleAll(w, env).nodes)
  {
    SettleInv(w, env);
    InvDistinct(SettleAll(w, env));
  }

  /** The launch loop and the verdict add nothing to the rank of the settled nodes. */
  lemma FromSettled(w: World, env: TickEnv)
    requires w.nodes != [] && LaunchesSucceed(env.launches) && DistinctNodeIds(SettleAll(w, env).nodes)
    requires Healthy(SettleAll(w, env).nodes) && LaunchedOnce(SettleAll(w, env).nodes, w.launches)
    ensures var settled, v := SettleAll(w, env), TickRunning(w, env);
            && Healthy(v.nodes) && LaunchedOnce(v.nodes, v.launches)
            && |v.launches| >= |w.launches| && Rank(v.nodes) + |v.launches| == Rank(settled.nodes) + |w.launches|
  {
    hide Healthy, LaunchedOnce, LaunchesSucceed, DistinctNodeIds, Rank, LaunchFrom;
    LaunchReadyOnce(SettleAll(w, env), env);
  }

  lemma FreeFacts(w: World)
    requires FailureFree(w)
    ensures Inv(w) && !w.reviewIterations && w.maxConcurrency >= 1 && w.nodes != []
    ensures (w.status.Running? || w.status.Complete?) && Healthy(w.nodes) && LaunchedOnce(w.nodes, w.launches)
  {
  }

  lemma SmoothFacts(w: World, env: TickEnv)
    requires Smooth(w, env)
    ensures EnvOk(env) && LaunchesSucceed(env.launches)
  {
  }

  lemma LaunchReadyOnce(w: World, env: TickEnv)
    requires DistinctNodeIds(w.nodes) && LaunchesSucceed(env.launches)
    requires Healthy(w.nodes) && LaunchedOnce(w.nodes, w.launches)
    ensures var v := LaunchReady(w, env.launches);
            && Healthy(v.nodes) && LaunchedOnce(v.nodes, v.launches)
            && |v.launches| >= |w.launches| && Rank(v.nodes) + |v.launches| == Rank(w.nodes) + |w.launches|
  {
    hide Healthy, LaunchedOnce, DistinctNodeIds, Rank;
    var v := LaunchFromOnce(w, 0, FreeSlots(w), DoneIds(w.nodes), env.launches);
    LaunchesGrow(w, 0, FreeSlots(w), DoneIds(w.nodes), env.launches);
  }

  lemma {:induction false} LaunchesGrow(w: World, k: nat, slots: nat, done: set<Id>, launches: Id -> LaunchOutcome)
    requires k <= |w.nodes|
    ensures |LaunchFrom(w, k, slots, done, launches).launches| >= |w.launches|
    decreases |w.nodes| - k
  {
    if k < |w.nodes| && slots > 0 {
      if IsReady(w.nodes[k], done) {
        var outcome := launches(w.nodes[k].id);
        LaunchesGrow(LaunchOne(w, k, outcome), k + 1, if outcome.Started? then slots - 1 else slots, done, launches);
      } else {
        LaunchesGrow(w, k + 1, slots, done, launches);
      }
    }
  }

  /** A smooth tick keeps a graph free of failures. It lowers the rank whenever it sees a finished
      run or launches a node, and unless it completes the graph it leaves some node working. */
  lemma SmoothTick(w: World, env: TickEnv)
    requires FailureFree(w) && w.status.Running? && Smooth(w, env)
    ensures var v := TickRunning(w, env);
            && FailureFree(v)
            && Rank(v.nodes) <= Rank(w.nodes)
            && (SeesFinish(w, env) || |v.launches| > |w.launches| ==> Rank(v.nodes) < Rank(w.nodes))
            && (!v.status.Complete? ==> AnyActive(v.nodes))
  {
    var v := TickRunning(w, env);
    TickVerdict(w, env);
    TickInv(w, env);
    SettledFree(w, env);
    CapKept(w, v);
    SameReview(w, v);
    hide Inv, Healthy, LaunchedOnce, SeesFinish, WaitsOnStopped, TickRunning;
    if v.status.Paused? {
      var i :| 0 <= i < |v.nodes| && v.nodes[i].status.Pending?;
      NoneStopped(v.nodes, i);
      assert false;
    }
    if v.status.Running? && !AnyActive(v.nodes) {
      HealthyRest(v.nodes);
    }
  }

  lemma SameReview(w: World, v: World)
    requires Evolves(w, v)
    ensures v.reviewIterations == w.reviewIterations && (w.nodes != [] ==> v.nodes != [])
  {
  }

  // ---------- whole runs ----------

  /** The world after `t` scheduler ticks; a complete graph is no longer ticked. */
  ghost function After(w: World, envs: nat -> TickEnv, t: nat): World {
    if t == 0 then w
    else
      var v := After(w, envs, t - 1);
      if v.status.Running? then TickRunning(v, envs(t - 1)) else v
  }

  ghost predicate AlwaysSmooth(w: World, envs: nat -> TickEnv) {
    forall t: nat {:trigger Smooth(After(w, envs, t), envs(t))} :: Smooth(After(w, envs, t), envs(t))
  }

  /** While some node works, a tick eventually comes that sees a run finished. */
  ghost predicate RunsFinish(w: World, envs: nat -> TickEnv) {
    forall t: nat {:trigger AnyActive(After(w, envs, t).nodes)} :: AnyActive(After(w, envs, t).nodes) ==>
      exists u: nat :: t <= u && SeesFinish(After(w, envs, u), envs(u))
  }

  lemma {:induction false} AfterIsFree(w: World, envs: nat -> TickEnv, t: nat)
    requires FailureFree(w) && AlwaysSmooth(w, envs)
    ensures FailureFree(After(w, envs, t))
  {
    hide FailureFree, Smooth;
    if t > 0 {
      AfterIsFree(w, envs, t - 1);
      var v := After(w, envs, t - 1);
      if v.status.Running? {
        SmoothTick(v, envs(t - 1));
      }
    }
  }

  lemma {:induction false} RankNeverRises(w: World, envs: nat -> TickEnv, t: nat, u: nat)
    requires FailureFree(w) && AlwaysSmooth(w, envs) && t <= u
    ensures Rank(After(w, envs, u).nodes) <= Rank(After(w, envs, t).nodes)
    decreases u
  {
    hide FailureFree, Smooth, TickRunning, Rank;
    if t < u {
      RankNeverRises(w, envs, t, u - 1);
      var v := After(w, envs, u - 1);
      AfterIsFree(w, envs, u - 1);
      if v.status.Running? {
        SmoothTick(v, envs(u - 1));
      }
    }
  }

  /** Seeing a run finish lowers the rank below what it ever was. */
  lemma FinishLowersRank(w: World, envs: nat -> TickEnv, t: nat, u: nat)
    requires FailureFree(w) && AlwaysSmooth(w, envs) && t <= u
    requires SeesFinish(After(w, envs, u), envs(u))
    ensures Rank(After(w, envs, u + 1).nodes) < Rank(After(w, envs, t).nodes)
  {
    hide FailureFree, Smooth, SeesFinish, TickRunning, Rank;
    var seen := After(w, envs, u);
    AfterIsFree(w, envs, u);
    FinishNeedsRunning(seen, envs(u));
    SmoothTick(seen, envs(u));
    RankNeverRises(w, envs, t, u);
  }

  /** A tick of a graph not complete completes it or leaves some node working. */
  lemma NextWorks(w: World, envs: nat -> TickEnv, t: nat)
    requires FailureFree(w) && AlwaysSmooth(w, envs) && !After(w, envs, t).status.Complete?
    ensures var v := After(w, envs, t + 1); v.status.Complete? || AnyActive(v.nodes)
  {
    hide FailureFree, Smooth, SeesFinish, TickRunning, Rank, AnyActive, Inv, Healthy, LaunchedOnce;
    AfterIsFree(w, envs, t);
    FreeFacts(After(w, envs, t));
    SmoothTick(After(w, envs, t), envs(t));
  }

  lemma NextFinish(w: World, envs: nat -> TickEnv, t: nat) returns (u: nat)
    requires RunsFinish(w, envs) && AnyActive(After(w, envs, t).nodes)
    ensures t <= u && SeesFinish(After(w, envs, u), envs(u))
  {
    hide After, SeesFinish, AnyActive;
    u :| t <= u && SeesFinish(After(w, envs, u), envs(u));
  }

  /** From any tick on, the graph completes or its rank drops. */
  lemma Advances(w: World, envs: nat -> TickEnv, t: nat) returns (u: nat)
    requires FailureFree(w) && AlwaysSmooth(w, envs) && RunsFinish(w, envs)
    ensures After(w, envs, u).status.Complete? || Rank(After(w, envs, u).nodes) < Rank(After(w, envs, t).nodes)
  {
    hide *;
    if After(w, envs, t).status.Complete? {
      return t;
    }
    NextWorks(w, envs, t);
    if After(w, envs, t + 1).status.Complete? {
      return t + 1;
    }
    var seen := NextFinish(w, envs, t + 1);
    FinishLowersRank(w, envs, t, seen);
    u := seen + 1;
  }

  lemma {:induction false} EventuallyComplete(w: World, envs: nat -> TickEnv, t: nat) returns (end: nat)
    requires FailureFree(w) && AlwaysSmooth(w, envs) && RunsFinish(w, envs)
    ensures After(w, envs, end).status.Complete?
    decreases Rank(After(w, envs, t).nodes)
  {
    hide FailureFree, AlwaysSmooth, RunsFinish, Rank, After;
    var u := Advances(w, envs, t);
    if After(w, envs, u).status.Complete? {
      end := u;
    } else {
      end := EventuallyComplete(w, envs, u);
    }
  }

  lemma FinishNeedsRunning(w: World, env: TickEnv)
    requires SeesFinish(w, env)
    ensures w.status.Running?
  {
  }

  /** If nothing fails and runs keep finishing, the graph completes with every node done, each
      launched exactly once. */
  lemma FailureFreeCompletes(w: World, envs: nat -> TickEnv) returns (end: nat)
    requires FailureFree(w) && AlwaysSmooth(w, envs) && RunsFinish(w, envs)
    ensures var v := After(w, envs, end);
            && v.status.Complete? && AllDone(v.nodes)
            && (forall j, k :: 0 <= j < k < |v.launches| ==> v.launches[j].id != v.launches[k].id)
            && (forall i :: 0 <= i < |v.nodes| ==> WasLaunched(v.launches, v.nodes[i].id))
  {
    end := EventuallyComplete(w, envs, 0);
    AfterIsFree(w, envs, end);
  }

  /** A freshly started plan is free of failures. */
  lemma StartIsFree(w: World, plan: seq<Proposal.ProposalNode>)
    requires Inv(w) && UnderReview(w) && Proposal.Acceptable(plan)
    requires !w.reviewIterations && w.maxConcurrency >= 1
    ensures FailureFree(StartPlan(w, plan)) && Rank(StartPlan(w, plan).nodes) == 2 * |plan|
  {
    hide Inv, Rank, Acyclic, Proposal.NodeOk;
    StartPlanInv(w, plan);
    UnplannedHasNoNodes(w);
    NothingLaunched(w);
    AllWaiting(StartPlan(w, plan).nodes);
  }

  lemma {:induction false} AllWaiting(nodes: seq<GraphNode>)
    requires forall i :: 0 <= i < |nodes| ==> nodes[i].status.Pending?
    ensures Rank(nodes) == 2 * |nodes|
  {
    if nodes != [] {
      AllWaiting(nodes[1..]);
    }
  }
}
