// The split tree that arranges a workspace's panels, and its edits. A tree owns its children, so
// an edit in place is a function from the tree before to the tree after.
module Layout {
  import opened Common

  type PanelId = nat

  datatype Orientation = Horizontal | Vertical

  datatype Direction = Left | Right | Up | Down

  datatype LayoutNode =
    | Pane(panelIds: seq<PanelId>, selected: Option<PanelId>)
    | Split(orientation: Orientation, divider: real, first: LayoutNode, second: LayoutNode)

  function SinglePane(p: PanelId): LayoutNode {
    Pane([p], Some(p))
  }

  /** All panel ids, in layout order. */
  function AllIds(t: LayoutNode): seq<PanelId> {
    match t
    case Pane(ids, _) => ids
    case Split(_, _, a, b) => AllIds(a) + AllIds(b)
  }

  predicate IsEmpty(t: LayoutNode) {
    match t
    case Pane(ids, _) => ids == []
    case Split(_, _, a, b) => IsEmpty(a) && IsEmpty(b)
  }

  /** Position of the first occurrence, or the length. */
  function IndexOf(s: seq<PanelId>, p: PanelId): (i: nat)
    ensures i <= |s| && (i < |s| <==> p in s)
    ensures i < |s| ==> s[i] == p
  {
    if s == [] || s[0] == p then 0 else 1 + IndexOf(s[1..], p)
  }

  /** The sequence without its first occurrence of `p`. */
  function RemoveFirst(s: seq<PanelId>, p: PanelId): seq<PanelId> {
    var i := IndexOf(s, p);
    if i < |s| then s[..i] + s[i + 1..] else s
  }

  // ---------- edits ----------

  /** Remove a panel; a split one of whose sides becomes empty collapses to the other. */
  function RemovePanel(t: LayoutNode, p: PanelId): (r: (LayoutNode, bool))
  {
    match t
    case Pane(ids, selected) =>
      if p in ids then
        var rest := RemoveFirst(ids, p);
        (Pane(rest, if selected == Some(p) then (if rest != [] then Some(rest[0]) else None) else selected), true)
      else (t, false)
    case Split(o, d, a, b) =>
      var ra := RemovePanel(a, p);
      if ra.1 then (Collapse(o, d, ra.0, b), true)
      else
        var rb := RemovePanel(b, p);
        if rb.1 then (Collapse(o, d, a, rb.0), true) else (t, false)
  }

  function Collapse(o: Orientation, d: real, a: LayoutNode, b: LayoutNode): LayoutNode {
    if IsEmpty(a) then b else if IsEmpty(b) then a else Split(o, d, a, b)
  }

  /** Change the first pane that contains `target`, in layout order. */
  function UpdatePane(t: LayoutNode, target: PanelId, f: LayoutNode -> LayoutNode): LayoutNode {
    match t
    case Pane(ids, _) => if target in ids then f(t) else t
    case Split(o, d, a, b) =>
      if target in AllIds(a) then Split(o, d, UpdatePane(a, target, f), b)
      else Split(o, d, a, UpdatePane(b, target, f))
  }

  /** Put the node and a new pane side by side, the new pane second. */
  function SplitNode(t: LayoutNode, o: Orientation, p: PanelId): LayoutNode {
    Split(o, 0.5, t, SinglePane(p))
  }

  /** Split the pane holding `target`, the new pane on the given side; false if there is none. */
  function SplitPaneWithPanel(t: LayoutNode, target: PanelId, p: PanelId, o: Orientation, d: Direction): (LayoutNode, bool) {
    match t
    case Pane(ids, _) =>
      if target !in ids then (t, false)
      else if d == Left || d == Up then (Split(o, 0.5, SinglePane(p), t), true)
      else (Split(o, 0.5, t, SinglePane(p)), true)
    case Split(so, sd, a, b) =>
      var ra := SplitPaneWithPanel(a, target, p, o, d);
      if ra.1 then (Split(so, sd, ra.0, b), true)
      else
        var rb := SplitPaneWithPanel(b, target, p, o, d);
        (Split(so, sd, a, rb.0), rb.1)
  }

  function InsertAfter(s: seq<PanelId>, target: PanelId, p: PanelId): seq<PanelId> {
    var i := IndexOf(s, target);
    if i < |s| then s[..i + 1] + [p] + s[i + 1..] else s + [p]
  }

  function TabAdded(pane: LayoutNode, target: PanelId, p: PanelId): LayoutNode {
    match pane
    case Pane(ids, _) => Pane(InsertAfter(ids, target, p), Some(p))
    case _ => pane
  }

  /** Add a panel as a tab right after `target`, selected. */
  function AddPanelToPane(t: LayoutNode, target: PanelId, p: PanelId): (LayoutNode, bool) {
    (UpdatePane(t, target, pane => TabAdded(pane, target, p)), target in AllIds(t))
  }

  function MoveTo(s: seq<PanelId>, p: PanelId, index: nat): seq<PanelId> {
    var rest := RemoveFirst(s, p);
    var i := if index <= |rest| then index else |rest|;
    rest[..i] + [p] + rest[i..]
  }

  function TabMoved(pane: LayoutNode, p: PanelId, index: nat): LayoutNode {
    match pane
    case Pane(ids, selected) => Pane(MoveTo(ids, p, index), selected)
    case _ => pane
  }

  /** Move a panel to another index of its own pane. */
  function ReorderPanelInPane(t: LayoutNode, p: PanelId, index: nat): (LayoutNode, bool) {
    (UpdatePane(t, p, pane => TabMoved(pane, p, index)), p in AllIds(t))
  }

  function SwapId(id: PanelId, a: PanelId, b: PanelId): PanelId {
    if id == a then b else if id == b then a else id
  }

  function SwapIds(s: seq<PanelId>, a: PanelId, b: PanelId): (r: seq<PanelId>)
    ensures |r| == |s| && forall i :: 0 <= i < |s| ==> r[i] == SwapId(s[i], a, b)
  {
    seq(|s|, i requires 0 <= i < |s| => SwapId(s[i], a, b))
  }

  function Swapped(t: LayoutNode, a: PanelId, b: PanelId): LayoutNode {
    match t
    case Pane(ids, selected) =>
      Pane(SwapIds(ids, a, b), if selected.Some? then Some(SwapId(selected.value, a, b)) else None)
    case Split(o, d, x, y) => Split(o, d, Swapped(x, a, b), Swapped(y, a, b))
  }

  /** Swap two panels wherever they are; says whether either was found. */
  method SwapPanels(t: LayoutNode, a: PanelId, b: PanelId) returns (t': LayoutNode, changed: bool)
    ensures t' == Swapped(t, a, b)
    ensures changed <==> a in AllIds(t) || b in AllIds(t)
    decreases t
  {
    match t {
      case Pane(ids, selected) =>
        var ids' := ids;
        changed := false;
        var i := 0;
        while i < |ids'|
          invariant i <= |ids'| == |ids|
          invariant forall j :: 0 <= j < i ==> ids'[j] == SwapId(ids[j], a, b)
          invariant forall j :: i <= j < |ids| ==> ids'[j] == ids[j]
          invariant changed <==> a in ids[..i] || b in ids[..i]
        {
          assert ids[..i + 1] == ids[..i] + [ids[i]];
          if ids'[i] == a {
            ids', changed := ids'[i := b], true;
          } else if ids'[i] == b {
            ids', changed := ids'[i := a], true;
          }
          i := i + 1;
        }
        assert ids[..|ids|] == ids;
        assert ids' == SwapIds(ids, a, b);
        var selected' := selected;
        if selected.Some? {
          if selected.value == a {
            selected' := Some(b);
          } else if selected.value == b {
            selected' := Some(a);
          }
        }
        t' := Pane(ids', selected');
      case Split(o, d, x, y) =>
        var x', inFirst := SwapPanels(x, a, b);
        var y', inSecond := SwapPanels(y, a, b);
        t', changed := Split(o, d, x', y'), inFirst || inSecond;
    }
  }

  // ---------- what the edits do to the order of ids ----------

  lemma {:induction false} EmptyHasNoIds(t: LayoutNode)
    ensures IsEmpty(t) <==> AllIds(t) == []
  {
    match t
    case Pane(_, _) =>
    case Split(_, _, a, b) =>
      EmptyHasNoIds(a);
      EmptyHasNoIds(b);
  }

  lemma RemoveFirstConcat(a: seq<PanelId>, b: seq<PanelId>, p: PanelId)
    ensures RemoveFirst(a + b, p) == if p in a then RemoveFirst(a, p) + b else a + RemoveFirst(b, p)
  {
    IndexOfConcat(a, b, p);
    var i := IndexOf(a, p);
    if p in a {
      CutFirst(a, b, i, i + 1);
      Assoc(a[..i], a[i + 1..], b);
    } else if p in b {
      var j := IndexOf(b, p);
      CutSecond(a, b, j, j + 1);
      Assoc(a, b[..j], b[j + 1..]);
    } else {
      assert p !in a + b;
    }
  }

  lemma CutFirst(a: seq<PanelId>, b: seq<PanelId>, i: nat, j: nat)
    requires i <= |a| && j <= |a|
    ensures (a + b)[..i] == a[..i] && (a + b)[j..] == a[j..] + b
  {
  }

  lemma CutSecond(a: seq<PanelId>, b: seq<PanelId>, i: nat, j: nat)
    requires i <= |b| && j <= |b|
    ensures (a + b)[..|a| + i] == a + b[..i] && (a + b)[|a| + j..] == b[j..]
  {
  }

  lemma InsertAfterConcat(a: seq<PanelId>, b: seq<PanelId>, target: PanelId, p: PanelId)
    requires target in a || target in b
    ensures InsertAfter(a + b, target, p)
         == if target in a then InsertAfter(a, target, p) + b else a + InsertAfter(b, target, p)
  {
    IndexOfConcat(a, b, target);
    hide IndexOf;
    if target in a {
      var i := IndexOf(a, target);
      CutFirst(a, b, i + 1, i + 1);
      Assoc(a[..i + 1] + [p], a[i + 1..], b);
    } else {
      var j := IndexOf(b, target);
      CutSecond(a, b, j + 1, j + 1);
      Assoc(a, b[..j + 1], [p]);
      Assoc(a, b[..j + 1] + [p], b[j + 1..]);
    }
  }

  lemma {:induction false} IndexOfConcat(a: seq<PanelId>, b: seq<PanelId>, p: PanelId)
    ensures IndexOf(a + b, p) == if p in a then IndexOf(a, p) else |a| + IndexOf(b, p)
  {
    if a == [] {
      assert a + b == b;
    } else {
      assert (a + b)[1..] == a[1..] + b;
      if a[0] != p {
        IndexOfConcat(a[1..], b, p);
      }
    }
  }

  /** Removing deletes exactly the first occurrence of the id. */
  lemma {:induction false} RemoveIds(t: LayoutNode, p: PanelId)
    ensures AllIds(RemovePanel(t, p).0) == RemoveFirst(AllIds(t), p)
    ensures RemovePanel(t, p).1 <==> p in AllIds(t)
  {
    match t
    case Pane(_, _) =>
    case Split(o, d, a, b) =>
      RemoveIds(a, p);
      RemoveIds(b, p);
      RemoveFirstConcat(AllIds(a), AllIds(b), p);
      CollapseIds(o, d, RemovePanel(a, p).0, b);
      CollapseIds(o, d, a, RemovePanel(b, p).0);
  }

  lemma CollapseIds(o: Orientation, d: real, a: LayoutNode, b: LayoutNode)
    ensures AllIds(Collapse(o, d, a, b)) == AllIds(a) + AllIds(b)
  {
    EmptyHasNoIds(a);
    EmptyHasNoIds(b);
  }

  /** The pane `UpdatePane` changes, and the ids before and after it. */
  function PaneOf(t: LayoutNode, target: PanelId): (pane: LayoutNode)
    requires target in AllIds(t)
    ensures pane.Pane? && target in pane.panelIds
  {
    match t
    case Pane(_, _) => t
    case Split(_, _, a, b) => if target in AllIds(a) then PaneOf(a, target) else PaneOf(b, target)
  }

  function IdsBefore(t: LayoutNode, target: PanelId): seq<PanelId>
    requires target in AllIds(t)
  {
    match t
    case Pane(_, _) => []
    case Split(_, _, a, b) =>
      if target in AllIds(a) then IdsBefore(a, target) else AllIds(a) + IdsBefore(b, target)
  }

  function IdsAfter(t: LayoutNode, target: PanelId): seq<PanelId>
    requires target in AllIds(t)
  {
    match t
    case Pane(_, _) => []
    case Split(_, _, a, b) =>
      if target in AllIds(a) then IdsAfter(a, target) + AllIds(b) else IdsAfter(b, target)
  }

  /** The panes before the target's do not contain it. */
  lemma {:induction false} AroundPane(t: LayoutNode, target: PanelId)
    requires target in AllIds(t)
    ensures AllIds(t) == IdsBefore(t, target) + PaneOf(t, target).panelIds + IdsAfter(t, target)
    ensures target !in IdsBefore(t, target)
  {
    match t
    case Pane(_, _) =>
    case Split(_, _, a, b) =>
      if target in AllIds(a) {
        AroundPane(a, target);
      } else {
        AroundPane(b, target);
      }
  }

  /** Changing a pane changes its own stretch of the ids and nothing else. */
  lemma {:induction false} UpdateIds(t: LayoutNode, target: PanelId, f: LayoutNode -> LayoutNode)
    requires target in AllIds(t)
    ensures AllIds(UpdatePane(t, target, f)) == IdsBefore(t, target) + AllIds(f(PaneOf(t, target))) + IdsAfter(t, target)
  {
    match t
    case Pane(_, _) =>
    case Split(_, _, a, b) =>
      if target in AllIds(a) {
        UpdateIds(a, target, f);
      } else {
        UpdateIds(b, target, f);
      }
  }

  lemma {:induction false} UpdateAbsent(t: LayoutNode, target: PanelId, f: LayoutNode -> LayoutNode)
    requires target !in AllIds(t)
    ensures UpdatePane(t, target, f) == t
  {
    match t
    case Pane(_, _) =>
    case Split(_, _, a, b) =>
      UpdateAbsent(b, target, f);
  }

  predicate NewFirst(d: Direction) {
    d == Left || d == Up
  }

  function Beside(pane: LayoutNode, p: PanelId, o: Orientation, d: Direction): LayoutNode {
    if NewFirst(d) then Split(o, 0.5, SinglePane(p), pane) else Split(o, 0.5, pane, SinglePane(p))
  }

  /** Splitting a pane with a panel changes the pane found first, and only that one. */
  lemma {:induction false} SplitIsUpdate(t: LayoutNode, target: PanelId, p: PanelId, o: Orientation, d: Direction)
    ensures SplitPaneWithPanel(t, target, p, o, d).1 <==> target in AllIds(t)
    ensures SplitPaneWithPanel(t, target, p, o, d).0 == UpdatePane(t, target, pane => Beside(pane, p, o, d))
  {
    match t
    case Pane(_, _) =>
    case Split(_, _, a, b) =>
      SplitIsUpdate(a, target, p, o, d);
      SplitIsUpdate(b, target, p, o, d);
      if target !in AllIds(a) {
        UpdateAbsent(a, target, pane => Beside(pane, p, o, d));
      }
  }

  /** The new id goes before or after the whole target pane. */
  lemma SplitIds(t: LayoutNode, target: PanelId, p: PanelId, o: Orientation, d: Direction)
    requires target in AllIds(t)
    ensures AllIds(SplitPaneWithPanel(t, target, p, o, d).0)
         == IdsBefore(t, target)
            + (if NewFirst(d) then [p] + PaneOf(t, target).panelIds else PaneOf(t, target).panelIds + [p])
            + IdsAfter(t, target)
  {
    SplitIsUpdate(t, target, p, o, d);
    UpdateIds(t, target, pane => Beside(pane, p, o, d));
  }

  /** A tab is added right after its target. */
  lemma AddIds(t: LayoutNode, target: PanelId, p: PanelId)
    requires target in AllIds(t)
    ensures AllIds(AddPanelToPane(t, target, p).0) == InsertAfter(AllIds(t), target, p)
  {
    UpdateIds(t, target, pane => TabAdded(pane, target, p));
    AroundPane(t, target);
    var pre, ids, post := IdsBefore(t, target), PaneOf(t, target).panelIds, IdsAfter(t, target);
    hide IdsBefore, IdsAfter, PaneOf, InsertAfter, UpdatePane, AllIds;
    InsertAfterConcat(pre + ids, post, target, p);
    InsertAfterConcat(pre, ids, target, p);
  }

  /** A panel moved within its pane lands at the given index there, and no other panel moves
      relative to the rest. */
  lemma ReorderIds(t: LayoutNode, p: PanelId, index: nat)
    requires p in AllIds(t)
    ensures var t' := ReorderPanelInPane(t, p, index).0; var pane := PaneOf(t, p).panelIds;
            && AllIds(t') == IdsBefore(t, p) + MoveTo(pane, p, index) + IdsAfter(t, p)
            && (Distinct(AllIds(t)) ==>
                  && RemoveFirst(AllIds(t'), p) == RemoveFirst(AllIds(t), p)
                  && IndexOf(MoveTo(pane, p, index), p) == if index < |pane| then index else |pane| - 1)
  {
    UpdateIds(t, p, pane => TabMoved(pane, p, index));
    AroundPane(t, p);
    if Distinct(AllIds(t)) {
      MovedAmong(IdsBefore(t, p), PaneOf(t, p).panelIds, IdsAfter(t, p), p, index);
    }
  }

  lemma MovedAmong(pre: seq<PanelId>, ids: seq<PanelId>, post: seq<PanelId>, p: PanelId, index: nat)
    requires Distinct(pre + ids + post) && p in ids && p !in pre
    ensures RemoveFirst(pre + MoveTo(ids, p, index) + post, p) == RemoveFirst(pre + ids + post, p)
    ensures IndexOf(MoveTo(ids, p, index), p) == if index < |ids| then index else |ids| - 1
  {
    var all, moved := pre + ids + post, MoveTo(ids, p, index);
    assert forall i :: 0 <= i < |ids| ==> all[|pre| + i] == ids[i];
    MovedWithin(ids, p, index);
    hide MoveTo, RemoveFirst, IndexOf;
    RemoveFirstConcat(pre + ids, post, p);
    RemoveFirstConcat(pre, ids, p);
    RemoveFirstConcat(pre + moved, post, p);
    RemoveFirstConcat(pre, moved, p);
  }

  lemma MovedWithin(s: seq<PanelId>, p: PanelId, index: nat)
    requires Distinct(s) && p in s
    ensures p in MoveTo(s, p, index) && RemoveFirst(MoveTo(s, p, index), p) == RemoveFirst(s, p)
    ensures IndexOf(MoveTo(s, p, index), p) == if index < |s| then index else |s| - 1
  {
    var rest := RemoveFirst(s, p);
    var k := IndexOf(s, p);
    assert p !in rest by {
      assert s[k] == p;
      assert forall j :: 0 <= j < |rest| ==> rest[j] == if j < k then s[j] else s[j + 1];
    }
    var i := if index <= |rest| then index else |rest|;
    IndexOfConcat(rest[..i], [p] + rest[i..], p);
    assert MoveTo(s, p, index) == rest[..i] + ([p] + rest[i..]);
    assert rest[..i] + rest[i..] == rest;
  }

  /** Swapping transposes two ids throughout the order. */
  lemma {:induction false} SwapOrder(t: LayoutNode, a: PanelId, b: PanelId)
    ensures AllIds(Swapped(t, a, b)) == SwapIds(AllIds(t), a, b)
  {
    match t
    case Pane(_, _) =>
    case Split(_, _, x, y) =>
      SwapOrder(x, a, b);
      SwapOrder(y, a, b);
  }

  /** Swapping twice restores the tree. */
  lemma {:induction false} SwapTwice(t: LayoutNode, a: PanelId, b: PanelId)
    ensures Swapped(Swapped(t, a, b), a, b) == t
  {
    match t
    case Pane(ids, _) =>
      assert SwapIds(SwapIds(ids, a, b), a, b) == ids;
    case Split(_, _, x, y) =>
      SwapTwice(x, a, b);
      SwapTwice(y, a, b);
  }

  // ---------- what every edit keeps ----------

  /** Each pane shows one of its own panels, unless it has none. */
  predicate SelectionsOk(t: LayoutNode) {
    match t
    case Pane(ids, selected) => if ids == [] then selected.None? else selected.Some? && selected.value in ids
    case Split(_, _, a, b) => SelectionsOk(a) && SelectionsOk(b)
  }

  /** No pane is empty. */
  predicate NoEmptyPane(t: LayoutNode) {
    match t
    case Pane(ids, _) => ids != []
    case Split(_, _, a, b) => NoEmptyPane(a) && NoEmptyPane(b)
  }

  /** No empty pane below a split: a tree without panels is a single pane. */
  predicate Tidy(t: LayoutNode) {
    t.Split? ==> NoEmptyPane(t)
  }

  lemma {:induction false} RemoveKeeps(t: LayoutNode, p: PanelId)
    requires SelectionsOk(t)
    ensures SelectionsOk(RemovePanel(t, p).0)
    ensures Tidy(t) ==> Tidy(RemovePanel(t, p).0)
  {
    RemoveKeepsSelections(t, p);
    if t.Split? && Tidy(t) {
      hide SelectionsOk;
      RemoveTidy(t, p);
    }
  }

  lemma {:induction false} RemoveKeepsSelections(t: LayoutNode, p: PanelId)
    requires SelectionsOk(t)
    ensures SelectionsOk(RemovePanel(t, p).0)
  {
    match t
    case Pane(ids, selected) =>
      if p in ids && selected.value != p {
        var i, k := IndexOf(ids, p), IndexOf(ids, selected.value);
        assert RemoveFirst(ids, p)[if k < i then k else k - 1] == selected.value;
      }
    case Split(_, _, a, b) =>
      RemoveKeepsSelections(a, p);
      RemoveKeepsSelections(b, p);
  }

  lemma {:induction false} RemoveTidy(t: LayoutNode, p: PanelId)
    requires Tidy(t)
    ensures Tidy(RemovePanel(t, p).0)
  {
    match t
    case Pane(_, _) =>
    case Split(_, _, a, b) =>
      RemoveTidy(a, p);
      RemoveTidy(b, p);
      if !IsEmpty(RemovePanel(a, p).0) {
        TidyIsFull(RemovePanel(a, p).0);
      }
      if !IsEmpty(RemovePanel(b, p).0) {
        TidyIsFull(RemovePanel(b, p).0);
      }
  }

  lemma {:induction false} FullIsNotEmpty(t: LayoutNode)
    requires NoEmptyPane(t)
    ensures !IsEmpty(t)
  {
    match t
    case Pane(_, _) =>
    case Split(_, _, a, _) => FullIsNotEmpty(a);
  }

  lemma TidyIsFull(t: LayoutNode)
    requires Tidy(t) && !IsEmpty(t)
    ensures NoEmptyPane(t)
  {
  }

  lemma {:induction false} UpdateKeeps(t: LayoutNode, target: PanelId, f: LayoutNode -> LayoutNode)
    requires target in AllIds(t) && SelectionsOk(t)
    requires SelectionsOk(PaneOf(t, target)) ==> SelectionsOk(f(PaneOf(t, target))) && NoEmptyPane(f(PaneOf(t, target)))
    ensures SelectionsOk(UpdatePane(t, target, f))
    ensures Tidy(t) ==> NoEmptyPane(UpdatePane(t, target, f))
  {
    match t
    case Pane(_, _) =>
    case Split(_, _, a, b) =>
      if target in AllIds(a) {
        UpdateKeeps(a, target, f);
      } else {
        UpdateKeeps(b, target, f);
      }
  }

  lemma SplitKeeps(t: LayoutNode, target: PanelId, p: PanelId, o: Orientation, d: Direction)
    requires target in AllIds(t) && SelectionsOk(t)
    ensures var t' := SplitPaneWithPanel(t, target, p, o, d).0;
            SelectionsOk(t') && (Tidy(t) ==> Tidy(t'))
  {
    SplitIsUpdate(t, target, p, o, d);
    UpdateKeeps(t, target, pane => Beside(pane, p, o, d));
  }

  lemma AddKeeps(t: LayoutNode, target: PanelId, p: PanelId)
    requires target in AllIds(t) && SelectionsOk(t)
    ensures var t' := AddPanelToPane(t, target, p).0;
            SelectionsOk(t') && (Tidy(t) ==> Tidy(t'))
  {
    var pane := PaneOf(t, target);
    assert InsertAfter(pane.panelIds, target, p)[IndexOf(pane.panelIds, target) + 1] == p;
    UpdateKeeps(t, target, pane => TabAdded(pane, target, p));
  }

  lemma ReorderKeeps(t: LayoutNode, p: PanelId, index: nat)
    requires SelectionsOk(t)
    ensures SelectionsOk(ReorderPanelInPane(t, p, index).0)
    ensures Tidy(t) ==> Tidy(ReorderPanelInPane(t, p, index).0)
  {
    if p in AllIds(t) {
      MoveKeepsMembers(PaneOf(t, p).panelIds, p, index);
      UpdateKeeps(t, p, pane => TabMoved(pane, p, index));
    } else {
      UpdateAbsent(t, p, pane => TabMoved(pane, p, index));
    }
  }

  lemma MoveKeepsMembers(s: seq<PanelId>, p: PanelId, index: nat)
    requires p in s
    ensures MoveTo(s, p, index) != [] && forall x :: x in MoveTo(s, p, index) <==> x in s
  {
    var rest := RemoveFirst(s, p);
    var k := IndexOf(s, p);
    assert s == s[..k] + [p] + s[k + 1..];
    var i := if index <= |rest| then index else |rest|;
    assert rest == rest[..i] + rest[i..];
    forall x
      ensures x in MoveTo(s, p, index) <==> x in s
    {
      assert x in rest <==> x in rest[..i] || x in rest[i..];
      assert x in s <==> x in rest || x == p;
    }
  }

  lemma {:induction false} SwapKeeps(t: LayoutNode, a: PanelId, b: PanelId)
    ensures SelectionsOk(t) ==> SelectionsOk(Swapped(t, a, b))
    ensures NoEmptyPane(t) ==> NoEmptyPane(Swapped(t, a, b))
    ensures Distinct(AllIds(t)) ==> Distinct(AllIds(Swapped(t, a, b)))
  {
    SwapOrder(t, a, b);
    match t
    case Pane(ids, selected) =>
      if selected.Some? && selected.value in ids {
        var i := IndexOf(ids, selected.value);
        assert SwapIds(ids, a, b)[i] == SwapId(selected.value, a, b);
      }
    case Split(_, _, x, y) =>
      SwapKeeps(x, a, b);
      SwapKeeps(y, a, b);
  }

  lemma RemoveFirstDistinct(s: seq<PanelId>, p: PanelId)
    requires Distinct(s)
    ensures Distinct(RemoveFirst(s, p)) && Elems(RemoveFirst(s, p)) == Elems(s) - {p}
  {
    var i := IndexOf(s, p);
    if i < |s| {
      var rest := RemoveFirst(s, p);
      assert forall j :: 0 <= j < |rest| ==> rest[j] == if j < i then s[j] else s[j + 1];
      forall x | x in s && x != p
        ensures x in rest
      {
        var k :| 0 <= k < |s| && s[k] == x;
        assert rest[if k < i then k else k - 1] == x;
      }
    }
  }

  lemma InsertDistinct(pre: seq<PanelId>, post: seq<PanelId>, p: PanelId)
    requires Distinct(pre + post) && p !in pre + post
    ensures Distinct(pre + [p] + post) && Elems(pre + [p] + post) == Elems(pre + post) + {p}
  {
    var all, more := pre + post, pre + [p] + post;
    assert forall k :: 0 <= k < |more| && k != |pre| ==> more[k] == all[if k < |pre| then k else k - 1];
    assert forall k :: 0 <= k < |all| ==> all[k] == more[if k < |pre| then k else k + 1];
    assert more[|pre|] == p;
  }
}
