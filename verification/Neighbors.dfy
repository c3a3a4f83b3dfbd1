// Directional focus: the panel next to a given one in the split tree.
module Neighbors {
  import opened Common
  import opened Layout
  import opened Workspaces

  predicate Forward(d: Direction) {
    d == Right || d == Down
  }

  function LastOf(ids: seq<PanelId>): Option<PanelId> {
    if ids == [] then None else Some(ids[|ids| - 1])
  }

  function OrElse(a: Option<PanelId>, b: Option<PanelId>): Option<PanelId> {
    if a.Some? then a else b
  }

  /** The panel one reaches from `p` in the given direction, if any. */
  function Neighbor(t: LayoutNode, p: PanelId, d: Direction): Option<PanelId> {
    match t
    case Pane(_, _) => None
    case Split(o, _, a, b) =>
      var inFirst, inSecond := p in AllIds(a), p in AllIds(b);
      if o == AxisOf(d) then
        if inFirst && Forward(d) then OrElse(Neighbor(a, p, d), FirstOf(AllIds(b)))
        else if inSecond && !Forward(d) then OrElse(Neighbor(b, p, d), LastOf(AllIds(a)))
        else if inFirst then Neighbor(a, p, d)
        else Neighbor(b, p, d)
      else if inFirst then Neighbor(a, p, d)
      else if inSecond then Neighbor(b, p, d)
      else None
  }

  // ---------- what it should mean ----------

  /** The way down to a node: at each split, whether to go to the second side. */
  type Address = seq<bool>

  predicate IsAddress(t: LayoutNode, at: Address)
    decreases |at|
  {
    at == [] || (t.Split? && IsAddress(if at[0] then t.second else t.first, at[1..]))
  }

  function NodeAt(t: LayoutNode, at: Address): LayoutNode
    requires IsAddress(t, at)
    decreases |at|
  {
    if at == [] then t else NodeAt(if at[0] then t.second else t.first, at[1..])
  }

  function Near(s: LayoutNode, d: Direction): LayoutNode
    requires s.Split?
  {
    if Forward(d) then s.first else s.second
  }

  function Far(s: LayoutNode, d: Direction): LayoutNode
    requires s.Split?
  {
    if Forward(d) then s.second else s.first
  }

  /** A split across the direction's axis with `p` on the near side and something on the far side. */
  predicate Parts(s: LayoutNode, p: PanelId, d: Direction) {
    s.Split? && s.orientation == AxisOf(d) && p in AllIds(Near(s, d)) && AllIds(Far(s, d)) != []
  }

  predicate PartsAt(t: LayoutNode, at: Address, p: PanelId, d: Direction) {
    IsAddress(t, at) && Parts(NodeAt(t, at), p, d)
  }

  /** The far side's panel closest to the divider. */
  function Edge(s: LayoutNode, d: Direction): PanelId
    requires s.Split? && AllIds(Far(s, d)) != []
  {
    var ids := AllIds(Far(s, d));
    if Forward(d) then ids[0] else ids[|ids| - 1]
  }

  /** `at` is the deepest split that parts `p` from something in the direction. */
  ghost predicate Deepest(t: LayoutNode, at: Address, p: PanelId, d: Direction) {
    PartsAt(t, at, p, d) && forall b :: PartsAt(t, b, p, d) ==> |b| <= |at|
  }

  lemma {:induction false} PartsBelow(t: LayoutNode, at: Address, p: PanelId, d: Direction)
    requires PartsAt(t, at, p, d)
    ensures p in AllIds(t)
    decreases |at|
  {
    if at != [] {
      PartsBelow(if at[0] then t.second else t.first, at[1..], p, d);
    }
  }

  /** Below a split, everything that parts `p` lies on the side `p` is on. */
  lemma PartsOnSide(t: LayoutNode, side: bool, at: Address, p: PanelId, d: Direction)
    requires t.Split? && Distinct(AllIds(t)) && PartsAt(t, at, p, d) && at != []
    requires p in AllIds(if side then t.second else t.first)
    ensures at[0] == side && PartsAt(if side then t.second else t.first, at[1..], p, d)
  {
    PartsBelow(if at[0] then t.second else t.first, at[1..], p, d);
    if at[0] != side {
      InBoth(AllIds(t.first), AllIds(t.second), p);
    }
  }

  lemma InBoth(a: seq<PanelId>, b: seq<PanelId>, p: PanelId)
    requires p in a && p in b
    ensures !Distinct(a + b)
  {
    var i :| 0 <= i < |a| && a[i] == p;
    var j :| 0 <= j < |b| && b[j] == p;
    assert (a + b)[i] == (a + b)[|a| + j];
  }

  lemma SidesDistinct(t: LayoutNode)
    requires t.Split? && Distinct(AllIds(t))
    ensures Distinct(AllIds(t.first)) && Distinct(AllIds(t.second))
  {
    var ids := AllIds(t);
    assert forall i :: 0 <= i < |AllIds(t.first)| ==> AllIds(t.first)[i] == ids[i];
    assert forall i :: 0 <= i < |AllIds(t.second)| ==> AllIds(t.second)[i] == ids[|AllIds(t.first)| + i];
  }

  function Side(t: LayoutNode, second: bool): LayoutNode
    requires t.Split?
  {
    if second then t.second else t.first
  }

  ghost predicate NeverParted(t: LayoutNode, p: PanelId, d: Direction) {
    forall at :: !PartsAt(t, at, p, d)
  }

  /** The deepest parting below the side `p` is on is the deepest of the whole tree. */
  lemma DeepestAbove(t: LayoutNode, side: bool, at: Address, p: PanelId, d: Direction)
    requires t.Split? && Distinct(AllIds(t)) && p in AllIds(Side(t, side))
    requires Deepest(Side(t, side), at, p, d)
    ensures Deepest(t, [side] + at, p, d) && NodeAt(t, [side] + at) == NodeAt(Side(t, side), at)
  {
    var up := [side] + at;
    assert up[1..] == at;
    assert PartsAt(t, up, p, d);
    forall b | PartsAt(t, b, p, d)
      ensures |b| <= |up|
    {
      if b != [] {
        PartsOnSide(t, side, b, p, d);
        assert PartsAt(Side(t, side), b[1..], p, d);
      }
    }
  }

  /** Failing a parting below, only the root can part. */
  lemma OnlyRootParts(t: LayoutNode, side: bool, p: PanelId, d: Direction)
    requires t.Split? && Distinct(AllIds(t)) && p in AllIds(Side(t, side))
    requires NeverParted(Side(t, side), p, d)
    ensures if Parts(t, p, d) then Deepest(t, [], p, d) else NeverParted(t, p, d)
  {
    forall b | PartsAt(t, b, p, d)
      ensures b == [] && Parts(t, p, d)
    {
      if b != [] {
        PartsOnSide(t, side, b, p, d);
      }
    }
    if Parts(t, p, d) {
      assert PartsAt(t, [], p, d);
    }
  }

  lemma SideOf(t: LayoutNode, p: PanelId) returns (side: bool)
    requires t.Split? && Distinct(AllIds(t)) && p in AllIds(t)
    ensures p in AllIds(Side(t, side)) && p !in AllIds(Side(t, !side)) && Distinct(AllIds(Side(t, side)))
  {
    SidesDistinct(t);
    side := p !in AllIds(t.first);
    if p in AllIds(t.first) && p in AllIds(t.second) {
      InBoth(AllIds(t.first), AllIds(t.second), p);
    }
  }

  /** One step of the search, on the side the panel is on. */
  lemma NeighborStep(t: LayoutNode, side: bool, p: PanelId, d: Direction)
    requires t.Split? && p in AllIds(Side(t, side)) && p !in AllIds(Side(t, !side))
    ensures Neighbor(t, p, d) == if Neighbor(Side(t, side), p, d).Some? then Neighbor(Side(t, side), p, d)
                                 else if Parts(t, p, d) then Some(Edge(t, d))
                                 else None
  {
  }

  /** The answer names the far edge at the deepest split that parts `p`. */
  ghost predicate IsFarEdge(t: LayoutNode, p: PanelId, d: Direction, q: PanelId) {
    exists at :: Deepest(t, at, p, d) && q == Edge(NodeAt(t, at), d)
  }

  lemma NeverPartedAbsent(t: LayoutNode, p: PanelId, d: Direction)
    requires p !in AllIds(t)
    ensures NeverParted(t, p, d)
  {
    forall at | PartsAt(t, at, p, d)
      ensures false
    {
      PartsBelow(t, at, p, d);
    }
  }

  /** Directional focus is sound and complete: it finds a panel exactly when some split on the
      direction's axis has `p` on the near side and anything on the far side, and then it is the far
      edge at the deepest such split. */
  lemma {:induction false} NeighborIsFarEdge(t: LayoutNode, p: PanelId, d: Direction)
    requires Distinct(AllIds(t))
    ensures Neighbor(t, p, d).None? <==> NeverParted(t, p, d)
    ensures Neighbor(t, p, d).Some? ==> IsFarEdge(t, p, d, Neighbor(t, p, d).value)
  {
    if p !in AllIds(t) {
      NeighborAbsent(t, p, d);
      NeverPartedAbsent(t, p, d);
    } else if t.Split? {
      var side := SideOf(t, p);
      var s := Side(t, side);
      NeighborIsFarEdge(s, p, d);
      NeighborStep(t, side, p, d);
      hide Neighbor;
      if Neighbor(s, p, d).Some? {
        var at :| Deepest(s, at, p, d) && Neighbor(s, p, d).value == Edge(NodeAt(s, at), d);
        DeepestAbove(t, side, at, p, d);
        assert PartsAt(t, [side] + at, p, d);
      } else {
        OnlyRootParts(t, side, p, d);
        if Parts(t, p, d) {
          assert PartsAt(t, [], p, d) && NodeAt(t, []) == t;
        }
      }
    }
  }

  /** At a split side by side, going right from the first side reaches the second side's first panel,
      and going left from the second side the first side's last, when the own side has none that way; at a
      split one above the other, going down and up do. Any other direction stays on the own side. */
  lemma NeighborOfSplit(o: Orientation, x: real, a: LayoutNode, b: LayoutNode, p: PanelId, d: Direction)
    requires Distinct(AllIds(a) + AllIds(b)) && AllIds(a) != [] && AllIds(b) != []
    requires p in AllIds(a) || p in AllIds(b)
    ensures var t := Split(o, x, a, b); var ids := AllIds(if p in AllIds(a) then b else a);
            var own := Neighbor(if p in AllIds(a) then a else b, p, d);
            Neighbor(t, p, d) ==
              if own.Some? then own
              else if p in AllIds(a) && ((o == Horizontal && d == Right) || (o == Vertical && d == Down)) then Some(ids[0])
              else if p in AllIds(b) && ((o == Horizontal && d == Left) || (o == Vertical && d == Up)) then Some(ids[|ids| - 1])
              else None
  {
    if p in AllIds(a) && p in AllIds(b) {
      InBoth(AllIds(a), AllIds(b), p);
    }
  }

  lemma {:induction false} NeighborAbsent(t: LayoutNode, p: PanelId, d: Direction)
    requires p !in AllIds(t)
    ensures Neighbor(t, p, d).None?
  {
    if t.Split? {
      NeighborAbsent(t.first, p, d);
      NeighborAbsent(t.second, p, d);
    }
  }
}
