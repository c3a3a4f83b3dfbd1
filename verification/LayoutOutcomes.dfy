// Each layout edit changes one place of the tree: which node, and what takes its place.
module LayoutOutcomes {
  import opened Common
  import opened Layout

  /** `after` is `t` with one node `a` replaced by `b`; every split above it stays. */
  predicate Replaced(t: LayoutNode, after: LayoutNode, a: LayoutNode, b: LayoutNode)
    decreases t
  {
    || (t == a && after == b)
    || (&& t.Split? && after.Split? && t.orientation == after.orientation && t.divider == after.divider
        && (|| (t.second == after.second && Replaced(t.first, after.first, a, b))
            || (t.first == after.first && Replaced(t.second, after.second, a, b))))
  }

  /** A pane with this panel among its tabs. */
  predicate PaneWith(pane: LayoutNode, p: PanelId) {
    pane.Pane? && p in pane.panelIds
  }

  lemma {:induction false} UpdateReplaces(t: LayoutNode, target: PanelId, f: LayoutNode -> LayoutNode)
    requires target in AllIds(t)
    ensures PaneWith(PaneOf(t, target), target)
    ensures Replaced(t, UpdatePane(t, target, f), PaneOf(t, target), f(PaneOf(t, target)))
  {
    match t
    case Pane(_, _) =>
    case Split(_, _, a, b) =>
      if target in AllIds(a) {
        UpdateReplaces(a, target, f);
      } else {
        UpdateReplaces(b, target, f);
      }
  }

  /** Splitting puts a new pane with just the panel, selected, beside the target's pane: before it to the
      left or up, after it to the right or down, under the given orientation. */
  lemma SplitReplaces(t: LayoutNode, target: PanelId, p: PanelId, o: Orientation, d: Direction) returns (pane: LayoutNode)
    requires target in AllIds(t)
    ensures PaneWith(pane, target)
    ensures d == Left || d == Up ==>
              Replaced(t, SplitPaneWithPanel(t, target, p, o, d).0, pane, Split(o, 0.5, Pane([p], Some(p)), pane))
    ensures d == Right || d == Down ==>
              Replaced(t, SplitPaneWithPanel(t, target, p, o, d).0, pane, Split(o, 0.5, pane, Pane([p], Some(p))))
  {
    pane := PaneOf(t, target);
    SplitIsUpdate(t, target, p, o, d);
    UpdateReplaces(t, target, pane => Beside(pane, p, o, d));
  }

  /** Adding puts the panel right after the target in its pane, and selects it. */
  lemma AddReplaces(t: LayoutNode, target: PanelId, p: PanelId) returns (pane: LayoutNode, pre: seq<PanelId>, post: seq<PanelId>)
    requires target in AllIds(t)
    ensures pane.Pane? && pane.panelIds == pre + [target] + post && target !in pre
    ensures Replaced(t, AddPanelToPane(t, target, p).0, pane, Pane(pre + [target, p] + post, Some(p)))
  {
    pane := PaneOf(t, target);
    UpdateReplaces(t, target, pane => TabAdded(pane, target, p));
    pre, post := CutAtFirst(pane.panelIds, target);
    var i := |pre|;
    assert IndexOf(pane.panelIds, target) == i by {
      IndexIs(pre, target, post);
    }
    assert pane.panelIds[..i + 1] + [p] + pane.panelIds[i + 1..] == pre + [target, p] + post;
  }

  lemma CutAtFirst(s: seq<PanelId>, p: PanelId) returns (pre: seq<PanelId>, post: seq<PanelId>)
    requires p in s
    ensures s == pre + [p] + post && p !in pre
  {
    var i := FirstAt(s, p);
    pre, post := s[..i], s[i + 1..];
  }

  lemma {:induction false} FirstAt(s: seq<PanelId>, p: PanelId) returns (i: nat)
    requires p in s
    ensures i < |s| && s[i] == p && p !in s[..i]
  {
    if s[0] == p {
      i := 0;
    } else {
      var j := FirstAt(s[1..], p);
      i := j + 1;
      assert s[..i] == [s[0]] + s[1..][..j];
    }
  }

  lemma {:induction false} IndexIs(pre: seq<PanelId>, p: PanelId, post: seq<PanelId>)
    requires p !in pre
    ensures IndexOf(pre + [p] + post, p) == |pre|
  {
    if pre != [] {
      assert (pre + [p] + post)[1..] == pre[1..] + [p] + post;
      IndexIs(pre[1..], p, post);
    }
  }

  /** Reordering takes the panel out of its pane's tabs and puts it back at the index, at most at the end;
      the selected tab stays. */
  lemma ReorderReplaces(t: LayoutNode, p: PanelId, index: nat)
    returns (pane: LayoutNode, pre: seq<PanelId>, post: seq<PanelId>, x: seq<PanelId>, y: seq<PanelId>)
    requires p in AllIds(t)
    ensures pane.Pane? && pane.panelIds == pre + [p] + post && p !in pre
    ensures x + y == pre + post && |x| == if index <= |pre + post| then index else |pre + post|
    ensures Replaced(t, ReorderPanelInPane(t, p, index).0, pane, Pane(x + [p] + y, pane.selected))
  {
    pane := PaneOf(t, p);
    UpdateReplaces(t, p, pane => TabMoved(pane, p, index));
    pre, post := CutAtFirst(pane.panelIds, p);
    IndexIs(pre, p, post);
    var rest := RemoveFirst(pane.panelIds, p);
    assert rest == pre + post;
    var i := if index <= |rest| then index else |rest|;
    x, y := rest[..i], rest[i..];
    hide AllIds, IndexOf, RemoveFirst, UpdatePane;
  }

  /** What is left of a pane without one of its tabs; the first tab is selected if the selected one goes. */
  ghost predicate TabGone(pane: LayoutNode, p: PanelId, after: LayoutNode, pre: seq<PanelId>, post: seq<PanelId>) {
    && pane.Pane? && pane.panelIds == pre + [p] + post && p !in pre
    && after == Pane(pre + post, if pane.selected != Some(p) then pane.selected
                                 else if pre + post == [] then None else Some((pre + post)[0]))
  }

  /** What a removal makes of a tree: the tab goes from its pane; a pane left empty goes with its split,
      whose other side takes the split's place, unless the pane was all there was. */
  ghost predicate RemovedAs(t: LayoutNode, v: LayoutNode, pane: LayoutNode, rest: LayoutNode, parent: LayoutNode) {
    if rest.Pane? && rest.panelIds != [] then Replaced(t, v, pane, rest)
    else if t == pane then v == rest
    else
      && parent.Split?
      && ((parent.first == pane && Replaced(t, v, parent, parent.second))
          || (parent.second == pane && Replaced(t, v, parent, parent.first)))
  }

  lemma {:induction false} RemoveReplaces(t: LayoutNode, p: PanelId)
    returns (pane: LayoutNode, rest: LayoutNode, pre: seq<PanelId>, post: seq<PanelId>, parent: LayoutNode)
    requires p in AllIds(t) && NoEmptyPane(t)
    ensures TabGone(pane, p, rest, pre, post) && RemovedAs(t, RemovePanel(t, p).0, pane, rest, parent)
    decreases t
  {
    match t
    case Pane(ids, selected) =>
      pane, parent := t, t;
      pre, post := CutAtFirst(ids, p);
      IndexIs(pre, p, post);
      rest := RemovePanel(t, p).0;
      assert RemoveFirst(ids, p) == pre + post;
    case Split(o, d, a, b) =>
      RemoveIds(a, p);
      RemoveIds(b, p);
      FullIsNotEmpty(a);
      FullIsNotEmpty(b);
      if p in AllIds(a) {
        pane, rest, pre, post, parent := RemoveReplaces(a, p);
        LeftEmpty(a, RemovePanel(a, p).0, pane, rest, parent);
        hide TabGone, RemovedAs, AllIds, NoEmptyPane;
        parent := FromFirst(o, d, a, b, RemovePanel(a, p).0, pane, rest, parent);
      } else {
        pane, rest, pre, post, parent := RemoveReplaces(b, p);
        LeftEmpty(b, RemovePanel(b, p).0, pane, rest, parent);
        hide TabGone, RemovedAs, AllIds, NoEmptyPane;
        parent := FromSecond(o, d, a, b, RemovePanel(b, p).0, pane, rest, parent);
      }
  }

  lemma FromFirst(o: Orientation, d: real, a: LayoutNode, b: LayoutNode, v: LayoutNode, pane: LayoutNode, rest: LayoutNode, parent: LayoutNode)
    returns (up: LayoutNode)
    requires RemovedAs(a, v, pane, rest, parent) && rest.Pane? && pane.Pane? && !IsEmpty(b)
    requires IsEmpty(v) <==> rest.panelIds == [] && a == pane
    ensures RemovedAs(Split(o, d, a, b), Collapse(o, d, v, b), pane, rest, up)
  {
    up := if rest.panelIds == [] && a == pane then Split(o, d, a, b) else parent;
  }

  lemma FromSecond(o: Orientation, d: real, a: LayoutNode, b: LayoutNode, v: LayoutNode, pane: LayoutNode, rest: LayoutNode, parent: LayoutNode)
    returns (up: LayoutNode)
    requires RemovedAs(b, v, pane, rest, parent) && rest.Pane? && pane.Pane? && !IsEmpty(a)
    requires IsEmpty(v) <==> rest.panelIds == [] && b == pane
    ensures RemovedAs(Split(o, d, a, b), Collapse(o, d, a, v), pane, rest, up)
  {
    up := if rest.panelIds == [] && b == pane then Split(o, d, a, b) else parent;
  }

  lemma {:induction false} ReplacedFull(t: LayoutNode, after: LayoutNode, a: LayoutNode, b: LayoutNode)
    requires Replaced(t, after, a, b) && NoEmptyPane(t) && !IsEmpty(b)
    ensures !IsEmpty(after)
    decreases t
  {
    if !(t == a && after == b) {
      FullIsNotEmpty(t.first);
      FullIsNotEmpty(t.second);
      if t.second == after.second && Replaced(t.first, after.first, a, b) {
      } else {
        ReplacedFull(t.second, after.second, a, b);
      }
    }
  }

  /** A side is empty after the removal exactly when it was the pane with just that tab. */
  lemma LeftEmpty(t: LayoutNode, v: LayoutNode, pane: LayoutNode, rest: LayoutNode, parent: LayoutNode)
    requires NoEmptyPane(t) && RemovedAs(t, v, pane, rest, parent) && rest.Pane? && pane.Pane?
    ensures IsEmpty(v) <==> rest.panelIds == [] && t == pane
  {
    if rest.panelIds != [] {
      ReplacedFull(t, v, pane, rest);
    } else if t != pane {
      var other := if parent.first == pane && Replaced(t, v, parent, parent.second) then parent.second else parent.first;
      PartFull(t, v, parent, other);
      FullIsNotEmpty(parent.first);
      FullIsNotEmpty(parent.second);
      ReplacedFull(t, v, parent, other);
    }
  }

  lemma {:induction false} PartFull(t: LayoutNode, after: LayoutNode, a: LayoutNode, b: LayoutNode)
    requires Replaced(t, after, a, b) && NoEmptyPane(t)
    ensures NoEmptyPane(a)
    decreases t
  {
    if t != a {
      if t.second == after.second && Replaced(t.first, after.first, a, b) {
        PartFull(t.first, after.first, a, b);
      } else {
        PartFull(t.second, after.second, a, b);
      }
    }
  }
}
