// What each workspace operation makes of the panels, the focus, the list of closed panels and the tree.
module WorkspaceOutcomes {
  import opened Common
  import opened Layout
  import opened LayoutOutcomes
  import opened Workspaces

  /** The tree with one node replaced by it and a pane for a new panel, selected, side by side. */
  predicate PutBeside(t: LayoutNode, after: LayoutNode, node: LayoutNode, p: PanelId, o: Orientation, first: bool) {
    Replaced(t, after, node, if first then Split(o, 0.5, Pane([p], Some(p)), node) else Split(o, 0.5, node, Pane([p], Some(p))))
  }

  /** The tree with a tab put right after another in its pane, and selected. */
  predicate PutAfter(t: LayoutNode, after: LayoutNode, pane: LayoutNode, pre: seq<PanelId>, target: PanelId, p: PanelId, post: seq<PanelId>) {
    && pane.Pane? && pane.panelIds == pre + [target] + post && target !in pre
    && Replaced(t, after, pane, Pane(pre + [target, p] + post, Some(p)))
  }

  lemma FocusInLayout(w: State, p: PanelId)
    requires Agrees(w)
    ensures p in AllIds(w.layout) <==> p in w.panels
  {
    assert p in AllIds(w.layout) <==> p in Elems(AllIds(w.layout));
  }

  /** Inserting puts the panel in a new pane after the focused pane, or after everything when nothing is
      focused, and focuses it. */
  lemma InsertOutcome(w: State, panel: Panel, o: Orientation) returns (node: LayoutNode)
    requires Agrees(w)
    ensures var v := Insert(w, panel, o);
            && v == w.(panels := w.panels[panel.id := panel], layout := v.layout, previousFocused := w.focused, focused := Some(panel.id))
            && PutBeside(w.layout, v.layout, node, panel.id, o, false)
            && (if w.focused.Some? then PaneWith(node, w.focused.value) else node == w.layout)
  {
    if w.focused.Some? {
      FocusInLayout(w, w.focused.value);
      node := PaneOf(w.layout, w.focused.value);
      UpdateReplaces(w.layout, w.focused.value, pane => SplitNode(pane, o, panel.id));
    } else {
      node := w.layout;
    }
  }

  /** A split makes a panel of the kind asked for, a terminal for the kinds it cannot make, with an empty
      path for the kinds that show a file. */
  lemma SplitMakes(w: State, o: Orientation, kind: PanelKind, id: PanelId)
    ensures var v := SplitWith(w, o, kind, id);
            && id in v.panels && v.panels[id].id == id
            && v.panels[id].kind == (if kind == AgentMonitor || kind == Graph then Terminal else kind)
            && v.panels[id].file == (if kind in {Markdown, FilePreview, Notes} then Some("") else None)
            && v == Insert(w, v.panels[id], o)
  {
  }

  /** The newest ten of the closed panels, one of them just closed. */
  ghost predicate ClosedLast(before: seq<Panel>, after: seq<Panel>, panel: Panel) {
    && |after| == (if |before| + 1 <= 10 then |before| + 1 else 10)
    && after[|after| - 1] == panel
    && forall i :: 0 <= i < |after| - 1 ==> after[i] == before[|before| + 1 - |after| + i]
  }

  /** Removing takes the panel out of the map and the layout, remembers it, and moves the focus only from
      it: to the tab on its left, else the one on its right, else the first panel left. */
  lemma RemoveOutcome(w: State, p: PanelId) returns (pane: LayoutNode, pre: seq<PanelId>, post: seq<PanelId>)
    requires Agrees(w)
    ensures p !in w.panels ==> Remove(w, p) == w
    ensures p in w.panels ==>
              var v := Remove(w, p);
              && v == w.(panels := w.panels - {p}, layout := RemovePanel(w.layout, p).0, closedPanels := v.closedPanels, focused := v.focused)
              && ClosedLast(w.closedPanels, v.closedPanels, w.panels[p])
              && pane.Pane? && pane.panelIds == pre + [p] + post
              && v.focused == (if w.focused != Some(p) then w.focused
                               else if pre != [] then Some(pre[|pre| - 1])
                               else if post != [] then Some(post[0])
                               else if AllIds(v.layout) != [] then Some(AllIds(v.layout)[0]) else None)
  {
    pane, pre, post := w.layout, [], [];
    if p in w.panels {
      FocusInLayout(w, p);
      pane := PaneOf(w.layout, p);
      pre, post := CutAtFirst(pane.panelIds, p);
      TabBesideIs(w.layout, p, pre, post);
      BesideStays(w, p, pre, post);
      ClosedCapped(w.closedPanels, w.panels[p]);
      hide AllIds, RemovePanel, Agrees, PaneOf, IndexOf, TabBeside, Capped, ClosedLast;
    }
  }

  lemma ClosedCapped(before: seq<Panel>, panel: Panel)
    ensures ClosedLast(before, Capped(before + [panel]), panel)
  {
  }

  lemma TabBesideIs(t: LayoutNode, p: PanelId, pre: seq<PanelId>, post: seq<PanelId>)
    requires p in AllIds(t) && PaneOf(t, p).panelIds == pre + [p] + post && p !in pre
    ensures TabBeside(t, p) == if pre != [] then Some(pre[|pre| - 1]) else if post != [] then Some(post[0]) else None
  {
    IndexIs(pre, p, post);
    hide AllIds, PaneOf, IndexOf;
  }

  /** The tabs next to a panel's are panels too. */
  lemma BesideStays(w: State, p: PanelId, pre: seq<PanelId>, post: seq<PanelId>)
    requires Agrees(w) && p in AllIds(w.layout) && PaneOf(w.layout, p).panelIds == pre + [p] + post
    ensures pre != [] ==> pre[|pre| - 1] in w.panels - {p}
    ensures post != [] ==> post[0] in w.panels - {p}
  {
    AroundPane(w.layout, p);
    Around(AllIds(w.layout), IdsBefore(w.layout, p), pre, p, post, IdsAfter(w.layout, p));
    hide AllIds, PaneOf, IdsBefore, IdsAfter, SelectionsOk, Distinct;
  }

  lemma Around(all: seq<PanelId>, before: seq<PanelId>, pre: seq<PanelId>, p: PanelId, post: seq<PanelId>, after: seq<PanelId>)
    requires all == before + (pre + [p] + post) + after && Distinct(all)
    ensures pre != [] ==> pre[|pre| - 1] in Elems(all) && pre[|pre| - 1] != p
    ensures post != [] ==> post[0] in Elems(all) && post[0] != p
  {
    var n := |before| + |pre|;
    assert all[n] == p;
    if pre != [] {
      assert all[n - 1] == pre[|pre| - 1];
    }
    if post != [] {
      assert all[n + 1] == post[0];
    }
  }

  /** Reopening brings the last closed panel back, under its new id, right after the focused tab, or the
      first one, or alone; with nothing closed it does nothing. */
  lemma ReopenOutcome(w: State, id: PanelId) returns (pane: LayoutNode, pre: seq<PanelId>, post: seq<PanelId>)
    requires Agrees(w)
    ensures w.closedPanels == [] ==> Reopen(w, id) == w
    ensures w.closedPanels != [] ==>
              var v := Reopen(w, id); var n := |w.closedPanels| - 1; var panel := w.closedPanels[n].(id := id);
              && v == w.(panels := w.panels[id := panel], layout := v.layout, closedPanels := w.closedPanels[..n],
                         previousFocused := w.focused, focused := Some(id))
              && (if w.focused.Some? then PutAfter(w.layout, v.layout, pane, pre, w.focused.value, id, post)
                  else v.layout == Pane([id], Some(id)))
  {
    pane, pre, post := w.layout, [], [];
    FirstIsMember(AllIds(w.layout));
    if w.closedPanels != [] && w.focused.Some? {
      FocusInLayout(w, w.focused.value);
      pane, pre, post := AddReplaces(w.layout, w.focused.value, id);
    }
  }

  /** Detaching takes the panel out without remembering it; the focus and the marks that were on it go. */
  lemma DetachOutcome(w: State, p: PanelId)
    ensures p !in w.panels ==> Detach(w, p) == w
    ensures p in w.panels ==>
              var v := Detach(w, p); var ids := AllIds(v.layout);
              && v == w.(panels := w.panels - {p}, layout := RemovePanel(w.layout, p).0, focused := v.focused,
                         previousFocused := v.previousFocused, zoomed := v.zoomed)
              && v.focused == (if w.focused != Some(p) then w.focused else if ids != [] then Some(ids[0]) else None)
              && v.previousFocused == (if w.previousFocused == Some(p) then None else w.previousFocused)
              && v.zoomed == (if w.zoomed == Some(p) then None else w.zoomed)
  {
  }

  /** Moving a tab takes it out and puts it right after the target in the target's pane, focused; a tab
      that is absent, or already there, does not move. */
  lemma MoveOutcome(w: State, source: PanelId, target: PanelId) returns (pane: LayoutNode, pre: seq<PanelId>, post: seq<PanelId>)
    requires Agrees(w)
    ensures var v := MoveToPane(w, source, target);
            if source == target || source !in w.panels || target !in w.panels || source in PaneOf(w.layout, target).panelIds then v == w
            else
              && v == w.(layout := v.layout, previousFocused := w.focused, focused := Some(source))
              && PutAfter(RemovePanel(w.layout, source).0, v.layout, pane, pre, target, source, post)
  {
    pane, pre, post := w.layout, [], [];
    FocusInLayout(w, target);
    if source != target && source in w.panels && target in w.panels {
      RemovedLayout(w.layout, source);
      pane, pre, post := AddReplaces(RemovePanel(w.layout, source).0, target, source);
      hide AllIds, RemovePanel, AddPanelToPane, Agrees, PaneOf;
    }
  }

  /** Splitting a panel into another's pane takes it out and puts it in a new pane on the side asked for,
      focused. */
  lemma SplitIntoOutcome(w: State, source: PanelId, target: PanelId, o: Orientation, d: Direction) returns (pane: LayoutNode)
    requires Agrees(w)
    ensures var v := SplitInto(w, source, target, o, d);
            if source == target || source !in w.panels || target !in w.panels then v == w
            else
              && v == w.(layout := v.layout, previousFocused := w.focused, focused := Some(source))
              && PaneWith(pane, target)
              && PutBeside(RemovePanel(w.layout, source).0, v.layout, pane, source, o, d == Left || d == Up)
  {
    pane := w.layout;
    FocusInLayout(w, target);
    if source != target && source in w.panels && target in w.panels {
      RemovedLayout(w.layout, source);
      var removed := RemovePanel(w.layout, source).0;
      pane := SplitReplaces(removed, target, source, o, d);
      SplitIsUpdate(removed, target, source, o, d);
      hide AllIds, RemovePanel, SplitPaneWithPanel, UpdatePane, Agrees, PaneOf;
    }
  }

  /** Dragging takes the panel out and puts it in a new pane on that side of the focused panel's pane, or
      of the first other panel's when it is focused itself: side by side to the left or right, one above
      the other up or down. */
  lemma DragOutcome(w: State, p: PanelId, d: Direction) returns (target: PanelId, pane: LayoutNode, pre: seq<PanelId>, post: seq<PanelId>)
    requires Agrees(w)
    ensures var v := Drag(w, p, d);
            if p !in w.panels || w.panels.Keys == {p} then v == w
            else
              && v == w.(layout := v.layout, previousFocused := w.focused, focused := Some(p))
              && target != p && PaneWith(pane, target)
              && (if w.focused != Some(p) then w.focused == Some(target)
                  else AllIds(w.layout) == pre + [target] + post && forall x <- pre :: x == p)
              && PutBeside(RemovePanel(w.layout, p).0, v.layout, pane, p,
                           if d == Left || d == Right then Horizontal else Vertical, d == Left || d == Up)
  {
    target, pane, pre, post := 0, w.layout, [], [];
    DragAgrees(w, p, d);
    FirstOtherIsOther(AllIds(w.layout), p);
    var t := DragTarget(w, p);
    assert t.Some? ==> t.value in Elems(AllIds(w.layout));
    if p in w.panels && t.Some? {
      target := t.value;
      assert target in w.panels && target != p;
      RemovedLayout(w.layout, p);
      var removed := RemovePanel(w.layout, p).0;
      pane := SplitReplaces(removed, target, p, AxisOf(d), d);
      SplitIsUpdate(removed, target, p, AxisOf(d), d);
      if w.focused == Some(p) {
        pre, post := OtherIsFirst(AllIds(w.layout), p);
      }
    }
    hide AllIds, RemovePanel, SplitPaneWithPanel, UpdatePane, Agrees, FirstOther;
  }

  lemma {:induction false} OtherIsFirst(ids: seq<PanelId>, p: PanelId) returns (pre: seq<PanelId>, post: seq<PanelId>)
    requires FirstOther(ids, p).Some?
    ensures ids == pre + [FirstOther(ids, p).value] + post && forall x <- pre :: x == p
  {
    if ids[0] != p {
      pre, post := [], ids[1..];
    } else {
      pre, post := OtherIsFirst(ids[1..], p);
      pre := [p] + pre;
    }
  }

  /** Focusing selects the panel's tab; the panel focused before is remembered, unless it is the same. */
  lemma FocusOutcome(w: State, p: PanelId) returns (pane: LayoutNode)
    requires Agrees(w)
    ensures var v := Focus(w, p);
            if p !in w.panels then v == w
            else
              && v == w.(layout := v.layout, focused := Some(p), previousFocused := if w.focused == Some(p) then w.previousFocused else w.focused)
              && PaneWith(pane, p) && Replaced(w.layout, v.layout, pane, Pane(pane.panelIds, Some(p)))
  {
    pane := w.layout;
    FocusInLayout(w, p);
    if p in w.panels {
      pane := PaneOf(w.layout, p);
      UpdateReplaces(w.layout, p, pane => Selected(pane, p));
    }
  }
}
