// Checking a proposed plan: the static checks and the Kahn worklist of parse_proposal.
module Proposal {
  import opened Common
  import opened Dag

  datatype ProposalNode = ProposalNode(id: Id, goal: string, deps: seq<Id>)

  datatype ProposalError =
    | NoNodes
    | TooManyNodes
    | DuplicateIds
    | InvalidId(id: Id)
    | EmptyGoal(id: Id)
    | UnknownDep(id: Id, dep: Id)
    | SelfDep(id: Id)
    | RepeatedDep(id: Id, dep: Id)
    | DependencyCycle

  const MAX_NODES := 50

  predicate ValidNodeId(id: Id) {
    && 0 < |id| <= 64
    && forall c <- id :: 'a' <= c <= 'z' || IsDigit(c) || c == '-' || c == '_'
  }

  function Ids(nodes: seq<ProposalNode>): set<Id> {
    set n | n in nodes :: n.id
  }

  ghost predicate DistinctIds(nodes: seq<ProposalNode>) {
    forall i, j :: 0 <= i < j < |nodes| ==> nodes[i].id != nodes[j].id
  }

  /** What is wrong with one node, looked at against the set of all ids. */
  ghost predicate NodeFault(n: ProposalNode, ids: set<Id>, e: ProposalError) {
    match e
    case InvalidId(id) => id == n.id && !ValidNodeId(n.id)
    case EmptyGoal(id) => id == n.id && IsBlank(n.goal)
    case UnknownDep(id, d) => id == n.id && d in n.deps && d !in ids
    case SelfDep(id) => id == n.id && n.id in n.deps
    case RepeatedDep(id, d) => id == n.id && exists i, j :: 0 <= i < j < |n.deps| && n.deps[i] == n.deps[j] == d
    case _ => false
  }

  ghost predicate NodeOk(n: ProposalNode, ids: set<Id>) {
    && ValidNodeId(n.id)
    && !IsBlank(n.goal)
    && (forall d <- n.deps :: d in ids && d != n.id)
    && Distinct(n.deps)
  }

  /** The checks parse_proposal makes before it looks for cycles. */
  ghost predicate StaticOk(nodes: seq<ProposalNode>) {
    && 0 < |nodes| <= MAX_NODES
    && DistinctIds(nodes)
    && forall n <- nodes :: NodeOk(n, Ids(nodes))
  }

  /** The dependencies the plan gives an id. */
  function DepsOf(nodes: seq<ProposalNode>, id: Id): (deps: seq<Id>)
    requires id in Ids(nodes)
    ensures exists n <- nodes :: n.id == id && n.deps == deps
  {
    if nodes[0].id == id then nodes[0].deps
    else
      assert id in Ids(nodes[1..]) by {
        var n :| n in nodes && n.id == id;
        assert n in nodes[1..];
      }
      DepsOf(nodes[1..], id)
  }

  ghost function Deps(nodes: seq<ProposalNode>): (deps: DepMap)
    requires DistinctIds(nodes)
    ensures deps.Keys == Ids(nodes)
    ensures forall n <- nodes :: deps[n.id] == n.deps
  {
    map id | id in Ids(nodes) :: DepsOf(nodes, id)
  }

  ghost predicate Acceptable(nodes: seq<ProposalNode>) {
    StaticOk(nodes) && Acyclic(Deps(nodes))
  }

  lemma IdsCardinality(nodes: seq<ProposalNode>)
    ensures |Ids(nodes)| <= |nodes|
    ensures |Ids(nodes)| == |nodes| <==> DistinctIds(nodes)
  {
    var ids := seq(|nodes|, i requires 0 <= i < |nodes| => nodes[i].id);
    ElemsCardinality(ids);
    forall id
      ensures id in Ids(nodes) <==> id in ids
    {
      if id in Ids(nodes) {
        var n :| n in nodes && n.id == id;
        var i :| 0 <= i < |nodes| && nodes[i] == n;
        assert ids[i] == id;
      }
      if id in ids {
        var i :| 0 <= i < |ids| && ids[i] == id;
        assert nodes[i] in nodes;
      }
    }
    assert Ids(nodes) == Elems(ids);
    assert forall i :: 0 <= i < |nodes| ==> ids[i] == nodes[i].id;
    if Distinct(ids) {
      forall i, j | 0 <= i < j < |nodes|
        ensures nodes[i].id != nodes[j].id
      {
        assert ids[i] != ids[j];
      }
    }
  }

  method CheckNode(n: ProposalNode, ids: set<Id>) returns (r: Result<(), ProposalError>)
    ensures r.Ok? <==> NodeOk(n, ids)
    ensures r.Err? ==> NodeFault(n, ids, r.error)
  {
    if !ValidNodeId(n.id) {
      return Err(InvalidId(n.id));
    }
    if IsBlank(n.goal) {
      return Err(EmptyGoal(n.id));
    }
    var seenDeps: set<Id> := {};
    for k := 0 to |n.deps|
      invariant seenDeps == Elems(n.deps[..k])
      invariant forall d <- n.deps[..k] :: d in ids && d != n.id
      invariant Distinct(n.deps[..k])
    {
      var d := n.deps[k];
      if d !in ids {
        return Err(UnknownDep(n.id, d));
      }
      if d == n.id {
        return Err(SelfDep(n.id));
      }
      if d in seenDeps {
        return Err(RepeatedDep(n.id, d));
      }
      assert n.deps[..k + 1] == n.deps[..k] + [d];
      seenDeps := seenDeps + {d};
    }
    assert n.deps[..|n.deps|] == n.deps;
    r := Ok(());
  }

  /** The ids of the nodes without dependencies, in whatever order the map yields them. */
  method InitialQueue(indegree: map<Id, nat>) returns (queue: seq<Id>)
    ensures Distinct(queue)
    ensures forall id :: id in queue <==> id in indegree && indegree[id] == 0
  {
    queue := [];
    var rest := set id | id in indegree && indegree[id] == 0;
    while rest != {}
      invariant Distinct(queue)
      invariant forall id <- queue :: id !in rest
      invariant forall id :: id in queue || id in rest <==> id in indegree && indegree[id] == 0
      decreases rest
    {
      var id :| id in rest;
      rest := rest - {id};
      queue := queue + [id];
    }
  }

  /** The dependencies of `n` not yet popped off the worklist. */
  ghost function Waiting(n: ProposalNode, popped: set<Id>): set<Id> {
    Elems(n.deps) - popped
  }

  /** The worklist agrees with the popped ids: what is left of each node's dependencies,
      and which nodes have none left and still wait to be popped. */
  ghost predicate Tracks(nodes: seq<ProposalNode>, popped: set<Id>, indegree: map<Id, nat>, queue: seq<Id>) {
    && Distinct(queue)
    && (forall i :: 0 <= i < |queue| ==> queue[i] !in popped && queue[i] in indegree)
    && (forall i {:trigger NodeTracked(nodes[i], popped, popped, indegree, queue)} :: 0 <= i < |nodes| ==>
        NodeTracked(nodes[i], popped, popped, indegree, queue))
  }

  /** One node's share of Tracks: its indegree counts the dependencies outside `counted`. */
  ghost predicate NodeTracked(n: ProposalNode, counted: set<Id>, popped: set<Id>, indegree: map<Id, nat>, queue: seq<Id>) {
    && n.id in indegree
    && indegree[n.id] == |Waiting(n, counted)|
    && (indegree[n.id] == 0 <==> n.id in popped || n.id in queue)
  }

  lemma WaitingShrinks(n: ProposalNode, popped: set<Id>, id: Id)
    requires id !in popped
    ensures id in n.deps ==> |Waiting(n, popped)| == |Waiting(n, popped + {id})| + 1
    ensures id !in n.deps ==> Waiting(n, popped) == Waiting(n, popped + {id})
  {
    if id in n.deps {
      assert Waiting(n, popped) == Waiting(n, popped + {id}) + {id};
    }
  }

  /** Taking an id off the queue leaves its dependents' shares to be updated. */
  lemma PoppedTracks(nodes: seq<ProposalNode>, id: Id, popped: set<Id>, indegree: map<Id, nat>, queue: seq<Id>)
    requires Tracks(nodes, popped, indegree, queue + [id])
    ensures Distinct(queue)
    ensures forall i :: 0 <= i < |queue| ==> queue[i] !in popped + {id} && queue[i] in indegree
    ensures forall i :: 0 <= i < |nodes| ==> NodeTracked(nodes[i], popped, popped + {id}, indegree, queue)
  {
    var full := queue + [id];
    assert full[|queue|] == id;
    assert forall i :: 0 <= i < |queue| ==> full[i] == queue[i];
    assert forall x :: x in full <==> x in queue || x == id;
    forall i | 0 <= i < |nodes|
      ensures NodeTracked(nodes[i], popped, popped + {id}, indegree, queue)
    {
      assert NodeTracked(nodes[i], popped, popped, indegree, full);
    }
  }

  lemma NoSelfDeps(nodes: seq<ProposalNode>)
    requires StaticOk(nodes)
    ensures DistinctIds(nodes) && forall i :: 0 <= i < |nodes| ==> nodes[i].id !in nodes[i].deps
  {
    assert forall i :: 0 <= i < |nodes| ==> nodes[i] in nodes;
  }

  /** Updating node `k` leaves the other nodes' shares alone. */
  lemma OthersTracked(nodes: seq<ProposalNode>, k: nat, counted: set<Id>, now: set<Id>,
                      before: map<Id, nat>, queue: seq<Id>, after: map<Id, nat>, queue': seq<Id>, i: nat)
    requires DistinctIds(nodes) && k < |nodes| && i < |nodes| && i != k
    requires NodeTracked(nodes[i], counted, now, before, queue)
    requires after.Keys == before.Keys && forall x <- before :: x != nodes[k].id ==> after[x] == before[x]
    requires queue' == queue || queue' == queue + [nodes[k].id]
    ensures NodeTracked(nodes[i], counted, now, after, queue')
  {
    assert nodes[i].id != nodes[k].id;
  }

  /** Update every node that depends on the id just popped off the queue. */
  method Relax(nodes: seq<ProposalNode>, id: Id, ghost popped: set<Id>, indegree: map<Id, nat>, queue: seq<Id>)
    returns (indegree': map<Id, nat>, queue': seq<Id>)
    requires StaticOk(nodes) && id !in popped && Tracks(nodes, popped, indegree, queue + [id])
    ensures Tracks(nodes, popped + {id}, indegree', queue')
    ensures indegree'.Keys == indegree.Keys
  {
    hide StaticOk;
    NoSelfDeps(nodes);
    indegree', queue' := indegree, queue;
    ghost var now := popped + {id};
    PoppedTracks(nodes, id, popped, indegree, queue);
    for k := 0 to |nodes|
      invariant indegree'.Keys == indegree.Keys
      invariant Distinct(queue') && forall i :: 0 <= i < |queue'| ==> queue'[i] !in now && queue'[i] in indegree'
      invariant forall i :: 0 <= i < |nodes| ==> NodeTracked(nodes[i], if i < k then now else popped, now, indegree', queue')
    {
      var n := nodes[k];
      assert NodeTracked(n, popped, now, indegree', queue');
      WaitingShrinks(n, popped, id);
      if id in n.deps {
        ghost var before, queued := indegree', queue';
        indegree' := indegree'[n.id := indegree'[n.id] - 1];
        if indegree'[n.id] == 0 {
          queue' := queue' + [n.id];
        }
        forall i | 0 <= i < |nodes|
          ensures NodeTracked(nodes[i], if i < k + 1 then now else popped, now, indegree', queue')
        {
          if i == k {
            assert queue' == queued + [n.id] ==> queue'[|queued|] == n.id;
          } else {
            OthersTracked(nodes, k, if i < k then now else popped, now, before, queued, indegree', queue', i);
          }
        }
      }
    }
  }

  /** Nodes left over once the worklist is empty wait for one another. */
  lemma LeftoverHasCycle(nodes: seq<ProposalNode>, popped: set<Id>, indegree: map<Id, nat>)
    requires StaticOk(nodes) && popped <= Ids(nodes) && popped != Ids(nodes) && Tracks(nodes, popped, indegree, [])
    ensures !Acyclic(Deps(nodes))
  {
    var stuck := Ids(nodes) - popped;
    forall i | 0 <= i < |nodes| && nodes[i].id in stuck
      ensures DependsInto(Deps(nodes), nodes[i].id, stuck)
    {
      var n := nodes[i];
      assert n in nodes && NodeTracked(n, popped, popped, indegree, []);
      assert Waiting(n, popped) != {};
      var d :| d in Waiting(n, popped);
      assert d in Deps(nodes)[n.id] && d in stuck;
    }
    assert AllDependInto(Deps(nodes), stuck);
    StuckSetHasCycle(Deps(nodes), stuck);
  }

  /** An id on the queue has all its dependencies popped. */
  lemma QueuedIsReady(nodes: seq<ProposalNode>, order: seq<Id>, indegree: map<Id, nat>, queue: seq<Id>, id: Id)
    requires StaticOk(nodes) && indegree.Keys == Ids(nodes)
    requires id in queue && Tracks(nodes, Elems(order), indegree, queue)
    ensures ReadyAfter(Deps(nodes), id, order) && id !in order
  {
    var i :| 0 <= i < |queue| && queue[i] == id;
    var j :| 0 <= j < |nodes| && nodes[j].id == id;
    var n := nodes[j];
    assert n in nodes && NodeTracked(n, Elems(order), Elems(order), indegree, queue);
    assert Waiting(n, Elems(order)) == {};
    forall d | d in n.deps
      ensures d in order
    {
      assert d !in Waiting(n, Elems(order));
    }
  }

  lemma InitialTracks(nodes: seq<ProposalNode>, indegree: map<Id, nat>, queue: seq<Id>)
    requires StaticOk(nodes) && indegree.Keys == Ids(nodes)
    requires forall n <- nodes :: indegree[n.id] == |n.deps|
    requires Distinct(queue) && forall id :: id in queue <==> id in indegree && indegree[id] == 0
    ensures Tracks(nodes, Elems([]), indegree, queue)
  {
    forall i | 0 <= i < |nodes|
      ensures NodeTracked(nodes[i], Elems([]), Elems([]), indegree, queue)
    {
      assert nodes[i] in nodes;
      ElemsCardinality(nodes[i].deps);
      assert Waiting(nodes[i], Elems([])) == Elems(nodes[i].deps);
    }
  }

  /** What an empty worklist says: all ids were popped exactly when there is no cycle. */
  lemma WorklistVerdict(nodes: seq<ProposalNode>, order: seq<Id>, indegree: map<Id, nat>)
    requires StaticOk(nodes) && IsTopological(Deps(nodes), order) && Elems(order) <= Ids(nodes)
    requires Tracks(nodes, Elems(order), indegree, [])
    ensures |order| == |nodes| <==> Acyclic(Deps(nodes))
    ensures |order| == |nodes| ==> Elems(order) == Ids(nodes)
  {
    ElemsCardinality(order);
    IdsCardinality(nodes);
    SubsetCardinality(Elems(order), Ids(nodes));
    if |order| == |nodes| {
      TopologicalIsAcyclic(Deps(nodes), order);
    } else {
      LeftoverHasCycle(nodes, Elems(order), indegree);
    }
  }

  /** Every id is popped at most once and after its dependencies, and exactly the acyclic
      plans have all their ids popped. */
  method KahnAccepts(nodes: seq<ProposalNode>) returns (ok: bool, ghost order: seq<Id>)
    requires StaticOk(nodes)
    ensures ok <==> Acyclic(Deps(nodes))
    ensures IsTopological(Deps(nodes), order)
    ensures ok ==> Elems(order) == Ids(nodes)
  {
    var indegree: map<Id, nat> := map id | id in Ids(nodes) :: |DepsOf(nodes, id)|;
    var queue := InitialQueue(indegree);
    NoSelfDeps(nodes);
    hide StaticOk, Tracks, IsTopological, Acyclic;
    var seen := 0;
    order := [];
    EmptyIsTopological(Deps(nodes));
    InitialTracks(nodes, indegree, queue);
    while queue != []
      invariant indegree.Keys == Ids(nodes)
      invariant Tracks(nodes, Elems(order), indegree, queue)
      invariant seen == |order| && IsTopological(Deps(nodes), order)
      invariant Elems(order) <= Ids(nodes)
      decreases Ids(nodes) - Elems(order)
    {
      var id, rest := queue[|queue| - 1], queue[..|queue| - 1];
      SplitLast(queue);
      QueuedIsReady(nodes, order, indegree, queue, id);
      ExtendTopological(Deps(nodes), order, id);
      seen := seen + 1;
      indegree, queue := Relax(nodes, id, Elems(order), indegree, rest);
      ElemsAppend(order, id);
      order := order + [id];
    }
    ok := seen == |nodes|;
    WorklistVerdict(nodes, order, indegree);
  }

  /** A plan is accepted, unchanged, exactly when it passes the checks and has no dependency cycle. */
  method ParseProposal(nodes: seq<ProposalNode>) returns (r: Result<seq<ProposalNode>, ProposalError>)
    ensures r.Ok? <==> Acceptable(nodes)
    ensures r.Ok? ==> r.value == nodes
    ensures r == Err(DependencyCycle) <==> StaticOk(nodes) && !Acyclic(Deps(nodes))
    ensures r.Err? && r.error !in {NoNodes, TooManyNodes, DuplicateIds, DependencyCycle} ==>
      exists n <- nodes :: NodeFault(n, Ids(nodes), r.error)
    ensures r == Err(NoNodes) ==> nodes == []
    ensures r == Err(TooManyNodes) ==> |nodes| > MAX_NODES
    ensures r == Err(DuplicateIds) ==> !DistinctIds(nodes)
  {
    if nodes == [] {
      return Err(NoNodes);
    }
    if |nodes| > MAX_NODES {
      return Err(TooManyNodes);
    }
    var ids := Ids(nodes);
    IdsCardinality(nodes);
    if |ids| != |nodes| {
      return Err(DuplicateIds);
    }
    for k := 0 to |nodes|
      invariant forall j :: 0 <= j < k ==> NodeOk(nodes[j], ids)
    {
      var checked := CheckNode(nodes[k], ids);
      if checked.Err? {
        return Err(checked.error);
      }
    }
    var acyclic, _ := KahnAccepts(nodes);
    if !acyclic {
      return Err(DependencyCycle);
    }
    r := Ok(nodes);
  }
}
