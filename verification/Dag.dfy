// Dependency relations: walks, cycles and ranks.
module Dag {
  import opened Common

  /** What each node depends on. */
  type DepMap = map<Id, seq<Id>>

  /** Every dependency is itself a node. */
  ghost predicate Closed(deps: DepMap) {
    forall n <- deps, d <- deps[n] :: d in deps
  }

  /** A nonempty sequence of nodes, each one depending on the next. */
  ghost predicate IsWalk(deps: DepMap, w: seq<Id>) {
    && w != []
    && forall k :: 0 <= k < |w| - 1 ==> w[k] in deps && w[k + 1] in deps[w[k]]
  }

  ghost predicate IsCycle(deps: DepMap, w: seq<Id>) {
    IsWalk(deps, w) && |w| >= 2 && w[0] == w[|w| - 1]
  }

  ghost predicate Acyclic(deps: DepMap) {
    !exists w :: IsCycle(deps, w)
  }

  /** `a` depends on `b`, directly or through other nodes. */
  ghost predicate DependsOn(deps: DepMap, a: Id, b: Id) {
    exists w :: IsWalk(deps, w) && |w| >= 2 && w[0] == a && w[|w| - 1] == b
  }

  /** `rank` falls along every dependency of a node it ranks. */
  ghost predicate Ranks(deps: DepMap, rank: map<Id, nat>) {
    forall n <- rank :: n in deps && forall d <- deps[n] :: d in rank && rank[d] < rank[n]
  }

  lemma DependsDirectly(deps: DepMap, a: Id, b: Id)
    requires a in deps && b in deps[a]
    ensures DependsOn(deps, a, b)
  {
    assert IsWalk(deps, [a, b]);
  }

  lemma DependsThrough(deps: DepMap, a: Id, b: Id, c: Id)
    requires a in deps && b in deps[a] && DependsOn(deps, b, c)
    ensures DependsOn(deps, a, c)
  {
    var w :| IsWalk(deps, w) && |w| >= 2 && w[0] == b && w[|w| - 1] == c;
    var v := [a] + w;
    assert forall k :: 0 < k < |v| ==> v[k] == w[k - 1];
    assert IsWalk(deps, v) && v[0] == a && v[|v| - 1] == c;
  }

  lemma {:induction false} RankFalls(deps: DepMap, rank: map<Id, nat>, w: seq<Id>)
    requires Ranks(deps, rank) && IsWalk(deps, w) && w[0] in rank
    ensures w[|w| - 1] in rank && rank[w[|w| - 1]] + |w| <= rank[w[0]] + 1
  {
    if |w| > 1 {
      assert w[1..][0] == w[1] && w[1] in deps[w[0]];
      RankFalls(deps, rank, w[1..]);
    }
  }

  lemma RankedIsAcyclic(deps: DepMap, rank: map<Id, nat>)
    requires Ranks(deps, rank) && rank.Keys == deps.Keys
    ensures Acyclic(deps)
  {
    forall w | IsCycle(deps, w)
      ensures false
    {
      assert w[0] in deps;
      RankFalls(deps, rank, w);
    }
  }

  /** All of `id`'s dependencies are among `before`. */
  ghost predicate ReadyAfter(deps: DepMap, id: Id, before: seq<Id>) {
    id in deps && forall d <- deps[id] :: d in before
  }

  /** Each node of `order` comes after all its dependencies. */
  ghost predicate IsTopological(deps: DepMap, order: seq<Id>) {
    && Distinct(order)
    && forall k {:trigger ReadyAfter(deps, order[k], order[..k])} :: 0 <= k < |order| ==> ReadyAfter(deps, order[k], order[..k])
  }

  lemma EmptyIsTopological(deps: DepMap)
    ensures IsTopological(deps, [])
  {
  }

  lemma ExtendTopological(deps: DepMap, order: seq<Id>, id: Id)
    requires IsTopological(deps, order) && ReadyAfter(deps, id, order) && id !in order
    ensures IsTopological(deps, order + [id])
  {
    var longer := order + [id];
    forall k | 0 <= k < |longer|
      ensures ReadyAfter(deps, longer[k], longer[..k])
    {
      if k < |order| {
        assert longer[..k] == order[..k] && longer[k] == order[k];
      } else {
        assert longer[..k] == order;
      }
    }
  }

  /** A topological order of all nodes rules out cycles. */
  lemma TopologicalIsAcyclic(deps: DepMap, order: seq<Id>)
    requires IsTopological(deps, order) && Elems(order) == deps.Keys
    ensures Acyclic(deps)
  {
    var rank := PositionRanks(deps, order);
    assert Ranks(deps, rank);
    RankedIsAcyclic(deps, rank);
  }

  lemma {:induction false} PositionRanks(deps: DepMap, order: seq<Id>) returns (rank: map<Id, nat>)
    requires IsTopological(deps, order)
    ensures rank.Keys == Elems(order) && Ranks(deps, rank)
    ensures forall id <- rank :: rank[id] < |order|
  {
    if order == [] {
      rank := map[];
    } else {
      var init, last := order[..|order| - 1], order[|order| - 1];
      forall k | 0 <= k < |init|
        ensures ReadyAfter(deps, init[k], init[..k])
      {
        assert init[k] == order[k] && init[..k] == order[..k];
      }
      var before := PositionRanks(deps, init);
      assert ReadyAfter(deps, last, init);
      assert last !in init;
      rank := before[last := |init|];
      assert order == init + [last];
    }
  }

  /** Node `a` depends directly on a member of `within`. */
  ghost predicate DependsInto(deps: DepMap, a: Id, within: set<Id>) {
    a in deps && exists d <- deps[a] :: d in within
  }

  ghost predicate AllDependInto(deps: DepMap, within: set<Id>) {
    forall a {:trigger DependsInto(deps, a, within)} :: a in within ==> DependsInto(deps, a, within)
  }

  /** A walk of any length inside a set whose members all depend on a member. */
  lemma {:induction false} LongWalk(deps: DepMap, within: set<Id>, n: nat) returns (w: seq<Id>)
    requires within != {}
    requires AllDependInto(deps, within)
    ensures |w| == n + 1 && IsWalk(deps, w) && forall x <- w :: x in within
  {
    if n == 0 {
      var a :| a in within;
      w := [a];
    } else {
      var v := LongWalk(deps, within, n - 1);
      var last := v[|v| - 1];
      assert DependsInto(deps, last, within);
      var d :| d in deps[last] && d in within;
      w := v + [d];
    }
  }

  /** If every member of a nonempty finite set depends on a member, there is a cycle. */
  lemma StuckSetHasCycle(deps: DepMap, stuck: set<Id>)
    requires stuck != {}
    requires AllDependInto(deps, stuck)
    ensures !Acyclic(deps)
  {
    var w := LongWalk(deps, stuck, |stuck|);
    if Distinct(w) {
      ElemsCardinality(w);
      SubsetCardinality(Elems(w), stuck);
    }
    var i, j :| 0 <= i < j < |w| && w[i] == w[j];
    var c := w[i..j + 1];
    assert forall k :: 0 <= k < |c| ==> c[k] == w[i + k];
    assert IsCycle(deps, c);
  }

  /** While some node is unranked, some unranked node has all its dependencies ranked. */
  lemma NextToRank(deps: DepMap, rank: map<Id, nat>) returns (n: Id)
    requires Closed(deps) && Acyclic(deps) && rank.Keys < deps.Keys
    ensures n in deps && n !in rank && forall d <- deps[n] :: d in rank
  {
    var rest := deps.Keys - rank.Keys;
    assert rank.Keys + rest == deps.Keys;
    if AllDependInto(deps, rest) {
      StuckSetHasCycle(deps, rest);
      assert false;
    }
    n :| n in rest && !DependsInto(deps, n, rest);
  }

  lemma RankOneMore(deps: DepMap, rank: map<Id, nat>, n: Id)
    requires Ranks(deps, rank) && forall m <- rank :: rank[m] < |rank|
    requires n in deps && n !in rank && forall d <- deps[n] :: d in rank
    ensures Ranks(deps, rank[n := |rank|])
    ensures |rank[n := |rank|]| == |rank| + 1
  {
    var next := rank[n := |rank|];
    forall m | m in next
      ensures m in deps && forall d <- deps[m] :: d in next && next[d] < next[m]
    {
    }
  }

  /** An acyclic closed relation can be ranked: the converse of RankedIsAcyclic. */
  lemma AcyclicIsRanked(deps: DepMap)
    requires Closed(deps) && Acyclic(deps)
    ensures exists rank :: Ranks(deps, rank) && rank.Keys == deps.Keys
  {
    var rank: map<Id, nat> := map[];
    while rank.Keys != deps.Keys
      invariant rank.Keys <= deps.Keys && Ranks(deps, rank)
      invariant forall n <- rank :: rank[n] < |rank|
      decreases deps.Keys - rank.Keys
    {
      var n := NextToRank(deps, rank);
      assert n in deps.Keys - rank.Keys;
      RankOneMore(deps, rank, n);
      rank := rank[n := |rank|];
    }
  }
}
