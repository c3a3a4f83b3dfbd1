// A workspace: its panel map, its layout tree and its focus, kept in agreement by every operation.
module Workspaces {
  import opened Common
  import opened Layout

  datatype PanelKind =
    | Terminal | Browser | Markdown | Diff | Project | FilePreview | Notes | History | Vault
    | AgentMonitor | Graph

  datatype Panel = Panel(id: PanelId, kind: PanelKind, file: Option<string>)

  /** A workspace as a value. */
  datatype State = State(
    layout: LayoutNode,
    panels: map<PanelId, Panel>,
    focused: Option<PanelId>,
    previousFocused: Option<PanelId>,
    zoomed: Option<PanelId>,
    attention: Option<PanelId>,
    closedPanels: seq<Panel>)

  const CLOSED_PANELS_CAP := 10

  /** The layout lists each panel exactly once and nothing else; the focus is a live panel,
      present exactly when there is any. */
  ghost predicate Agrees(w: State) {
    && Distinct(AllIds(w.layout))
    && Elems(AllIds(w.layout)) == w.panels.Keys
    && (forall id <- w.panels :: w.panels[id].id == id)
    && (w.focused.None? <==> w.panels == map[])
    && (w.focused.Some? ==> w.focused.value in w.panels)
    && SelectionsOk(w.layout)
  }

  function FirstOf(ids: seq<PanelId>): Option<PanelId> {
    if ids == [] then None else Some(ids[0])
  }

  function FreshWorkspace(id: PanelId): State {
    State(SinglePane(id), map[id := Panel(id, Terminal, None)], Some(id), None, None, None, [])
  }

  /** The generic split makes a terminal of the kinds it cannot make. */
  function SplitKind(kind: PanelKind): PanelKind {
    if kind.AgentMonitor? || kind.Graph? then Terminal else kind
  }

  function KindFile(kind: PanelKind): Option<string> {
    if kind.Markdown? || kind.FilePreview? || kind.Notes? then Some("") else None
  }

  function SplitAtFocus(t: LayoutNode, focused: Option<PanelId>, o: Orientation, id: PanelId): LayoutNode {
    if focused.Some? && focused.value in AllIds(t) then UpdatePane(t, focused.value, pane => SplitNode(pane, o, id))
    else SplitNode(t, o, id)
  }

  function Insert(w: State, panel: Panel, o: Orientation): State {
    w.(panels := w.panels[panel.id := panel], layout := SplitAtFocus(w.layout, w.focused, o, panel.id),
       previousFocused := w.focused, focused := Some(panel.id))
  }

  function SplitWith(w: State, o: Orientation, kind: PanelKind, id: PanelId): State {
    Insert(w, Panel(id, SplitKind(kind), KindFile(SplitKind(kind))), o)
  }

  function Capped(s: seq<Panel>): seq<Panel> {
    if |s| > CLOSED_PANELS_CAP then s[|s| - CLOSED_PANELS_CAP..] else s
  }

  /** The tab to the left in the same pane, else the one to the right. */
  function TabBeside(t: LayoutNode, p: PanelId): Option<PanelId> {
    if p !in AllIds(t) then None
    else
      var ids := PaneOf(t, p).panelIds;
      var i := IndexOf(ids, p);
      if i > 0 then Some(ids[i - 1]) else if i + 1 < |ids| then Some(ids[i + 1]) else None
  }

  function FocusAfterRemoval(w: State, layout: LayoutNode, panels: map<PanelId, Panel>, p: PanelId): Option<PanelId> {
    if w.focused != Some(p) then w.focused
    else
      var beside := TabBeside(w.layout, p);
      if beside.Some? && beside.value in panels then beside else FirstOf(AllIds(layout))
  }

  function Remove(w: State, p: PanelId): State {
    if p !in w.panels then w else
    var panels := w.panels - {p};
    var layout := RemovePanel(w.layout, p).0;
    w.(panels := panels, layout := layout, closedPanels := Capped(w.closedPanels + [w.panels[p]]),
       focused := FocusAfterRemoval(w, layout, panels, p))
  }

  function Reopen(w: State, id: PanelId): State {
    if w.closedPanels == [] then w else
    var panel := w.closedPanels[|w.closedPanels| - 1].(id := id);
    var target := if w.focused.Some? then w.focused else FirstOf(AllIds(w.layout));
    w.(closedPanels := w.closedPanels[..|w.closedPanels| - 1], panels := w.panels[id := panel],
       layout := if target.Some? then AddPanelToPane(w.layout, target.value, id).0 else SinglePane(id),
       previousFocused := w.focused, focused := Some(id))
  }

  function Cleared(o: Option<PanelId>, p: PanelId): Option<PanelId> {
    if o == Some(p) then None else o
  }

  function Detach(w: State, p: PanelId): State {
    if p !in w.panels then w else
    var layout := RemovePanel(w.layout, p).0;
    w.(panels := w.panels - {p}, layout := layout,
       focused := if w.focused == Some(p) then FirstOf(AllIds(layout)) else w.focused,
       previousFocused := Cleared(w.previousFocused, p), zoomed := Cleared(w.zoomed, p))
  }

  function Focusing(w: State, layout: LayoutNode, p: PanelId): State {
    w.(layout := layout, previousFocused := w.focused, focused := Some(p))
  }

  predicate SharePane(t: LayoutNode, p: PanelId, q: PanelId) {
    q in AllIds(t) && p in PaneOf(t, q).panelIds
  }

  function MoveToPane(w: State, source: PanelId, target: PanelId): State {
    if source == target || source !in w.panels || target !in w.panels || SharePane(w.layout, source, target) then w
    else
      var added := AddPanelToPane(RemovePanel(w.layout, source).0, target, source);
      if added.1 then Focusing(w, added.0, source) else w.(layout := added.0)
  }

  function SplitInto(w: State, source: PanelId, target: PanelId, o: Orientation, d: Direction): State {
    if source == target || source !in w.panels || target !in w.panels then w
    else
      var split := SplitPaneWithPanel(RemovePanel(w.layout, source).0, target, source, o, d);
      if split.1 then Focusing(w, split.0, source) else w.(layout := split.0)
  }

  function DragTarget(w: State, p: PanelId): Option<PanelId> {
    if w.focused != Some(p) then w.focused else FirstOther(AllIds(w.layout), p)
  }

  function FirstOther(ids: seq<PanelId>, p: PanelId): Option<PanelId> {
    if ids == [] then None else if ids[0] != p then Some(ids[0]) else FirstOther(ids[1..], p)
  }

  function AxisOf(d: Direction): Orientation {
    if d == Left || d == Right then Horizontal else Vertical
  }

  function Drag(w: State, p: PanelId, d: Direction): State {
    var target := DragTarget(w, p);
    if p !in w.panels || target.None? then w
    else
      var removed := RemovePanel(w.layout, p).0;
      var split := SplitPaneWithPanel(removed, target.value, p, AxisOf(d), d);
      Focusing(w, if split.1 then split.0 else AddPanelToPane(split.0, target.value, p).0, p)
  }

  function Selected(pane: LayoutNode, p: PanelId): LayoutNode {
    match pane
    case Pane(ids, _) => Pane(ids, Some(p))
    case _ => pane
  }

  function Focus(w: State, p: PanelId): State {
    if p !in w.panels || p !in AllIds(w.layout) then w
    else
      w.(layout := UpdatePane(w.layout, p, pane => Selected(pane, p)), focused := Some(p),
         previousFocused := if w.focused == Some(p) then w.previousFocused else w.focused)
  }

  // ---------- what every operation keeps ----------

  lemma FreshAgrees(id: PanelId)
    ensures Agrees(FreshWorkspace(id)) && Tidy(FreshWorkspace(id).layout)
  {
    assert Elems(AllIds(FreshWorkspace(id).layout)) == {id};
  }

  lemma SplitNodeIds(t: LayoutNode, focused: Option<PanelId>, o: Orientation, id: PanelId)
    requires Distinct(AllIds(t)) && SelectionsOk(t) && id !in AllIds(t)
    ensures var v := SplitAtFocus(t, focused, o, id);
            Distinct(AllIds(v)) && Elems(AllIds(v)) == Elems(AllIds(t)) + {id} && SelectionsOk(v)
  {
    if focused.Some? && focused.value in AllIds(t) {
      var p := focused.value;
      UpdateIds(t, p, pane => SplitNode(pane, o, id));
      UpdateKeeps(t, p, pane => SplitNode(pane, o, id));
      AroundPane(t, p);
      var pre, post := IdsBefore(t, p) + PaneOf(t, p).panelIds, IdsAfter(t, p);
      InsertDistinct(pre, post, id);
      Assoc(IdsBefore(t, p), PaneOf(t, p).panelIds, [id]);
    } else {
      InsertDistinct(AllIds(t), [], id);
      assert AllIds(t) + [] == AllIds(t) && AllIds(t) + [id] + [] == AllIds(t) + [id];
    }
  }

  lemma InsertAgrees(w: State, panel: Panel, o: Orientation)
    requires Agrees(w) && panel.id !in w.panels
    ensures Agrees(Insert(w, panel, o))
  {
    SplitNodeIds(w.layout, w.focused, o, panel.id);
    assert w.panels[panel.id := panel].Keys == w.panels.Keys + {panel.id};
  }

  /** Removing a panel from the layout, in terms of the set of ids. */
  lemma RemovedLayout(t: LayoutNode, p: PanelId)
    requires Distinct(AllIds(t)) && SelectionsOk(t)
    ensures var v := RemovePanel(t, p).0;
            Distinct(AllIds(v)) && Elems(AllIds(v)) == Elems(AllIds(t)) - {p} && SelectionsOk(v)
    ensures forall x :: x in AllIds(RemovePanel(t, p).0) <==> x in AllIds(t) && x != p
  {
    RemoveIds(t, p);
    RemoveFirstDistinct(AllIds(t), p);
    RemoveKeepsSelections(t, p);
    var ids, rest := AllIds(t), AllIds(RemovePanel(t, p).0);
    hide RemovePanel, AllIds, RemoveFirst;
    forall x
      ensures x in rest <==> x in ids && x != p
    {
      assert x in rest <==> x in Elems(rest);
      assert x in ids <==> x in Elems(ids);
    }
  }

  /** The focus after a removal is a panel that is left, if any is. */
  lemma FocusIsLive(w: State, layout: LayoutNode, panels: map<PanelId, Panel>, p: PanelId)
    requires Elems(AllIds(layout)) == panels.Keys && panels == w.panels - {p}
    requires p in w.panels && (w.focused.None? ==> w.panels == map[]) && (w.focused.Some? ==> w.focused.value in w.panels)
    ensures var focus := FocusAfterRemoval(w, layout, panels, p);
            (focus.None? <==> panels == map[]) && (focus.Some? ==> focus.value in panels)
  {
    hide AllIds, TabBeside, Elems;
    FirstIsMember(AllIds(layout));
    assert panels == map[] <==> panels.Keys == {};
  }

  lemma RemoveAgrees(w: State, p: PanelId)
    requires Agrees(w)
    ensures Agrees(Remove(w, p))
  {
    if p in w.panels {
      hide RemovePanel, AllIds, SelectionsOk, FocusAfterRemoval, Capped, Distinct, Elems;
      var v := Remove(w, p);
      RemovedLayout(w.layout, p);
      assert v.panels.Keys == w.panels.Keys - {p};
      FocusIsLive(w, v.layout, v.panels, p);
    }
  }

  lemma FirstIsMember(ids: seq<PanelId>)
    ensures FirstOf(ids).None? <==> Elems(ids) == {}
    ensures FirstOf(ids).Some? ==> FirstOf(ids).value in Elems(ids)
  {
    if ids != [] {
      assert ids[0] in Elems(ids);
    }
  }

  lemma DetachAgrees(w: State, p: PanelId)
    requires Agrees(w)
    ensures Agrees(Detach(w, p))
  {
    if p in w.panels {
      hide RemovePanel, AllIds, SelectionsOk;
      var v := Detach(w, p);
      RemovedLayout(w.layout, p);
      FirstIsMember(AllIds(v.layout));
      assert v.panels.Keys == w.panels.Keys - {p};
      assert v.panels == map[] <==> v.panels.Keys == {};
    }
  }

  lemma AddedLayout(t: LayoutNode, target: PanelId, p: PanelId)
    requires Distinct(AllIds(t)) && SelectionsOk(t) && target in AllIds(t) && p !in AllIds(t)
    ensures var v := AddPanelToPane(t, target, p).0;
            Distinct(AllIds(v)) && Elems(AllIds(v)) == Elems(AllIds(t)) + {p} && SelectionsOk(v)
  {
    AddIds(t, target, p);
    AddKeeps(t, target, p);
    var ids, i := AllIds(t), IndexOf(AllIds(t), target);
    assert ids == ids[..i + 1] + ids[i + 1..];
    InsertDistinct(ids[..i + 1], ids[i + 1..], p);
  }

  lemma SplitLayout(t: LayoutNode, target: PanelId, p: PanelId, o: Orientation, d: Direction)
    requires Distinct(AllIds(t)) && SelectionsOk(t) && target in AllIds(t) && p !in AllIds(t)
    ensures var v := SplitPaneWithPanel(t, target, p, o, d).0;
            Distinct(AllIds(v)) && Elems(AllIds(v)) == Elems(AllIds(t)) + {p} && SelectionsOk(v)
  {
    SplitIds(t, target, p, o, d);
    SplitKeeps(t, target, p, o, d);
    AroundPane(t, target);
    var pre, ids, post := IdsBefore(t, target), PaneOf(t, target).panelIds, IdsAfter(t, target);
    Assoc(pre, ids, post);
    if NewFirst(d) {
      InsertDistinct(pre, ids + post, p);
      Assoc(pre, [p], ids);
      Assoc(pre + [p], ids, post);
    } else {
      InsertDistinct(pre + ids, post, p);
      Assoc(pre, ids, [p]);
    }
  }

  lemma ReopenAgrees(w: State, id: PanelId)
    requires Agrees(w) && id !in w.panels
    ensures Agrees(Reopen(w, id))
  {
    if w.closedPanels != [] {
      var v := Reopen(w, id);
      FirstIsMember(AllIds(w.layout));
      var target := if w.focused.Some? then w.focused else FirstOf(AllIds(w.layout));
      if target.Some? {
        AddedLayout(w.layout, target.value, id);
      } else {
        assert Elems(AllIds(v.layout)) == {id};
      }
      assert v.panels.Keys == w.panels.Keys + {id};
    }
  }

  lemma MoveToPaneAgrees(w: State, source: PanelId, target: PanelId)
    requires Agrees(w)
    ensures Agrees(MoveToPane(w, source, target))
  {
    hide RemovePanel, AllIds, SelectionsOk, AddPanelToPane, PaneOf;
    if source != target && source in w.panels && target in w.panels {
      assert target in Elems(AllIds(w.layout));
      RemovedLayout(w.layout, source);
      AddedLayout(RemovePanel(w.layout, source).0, target, source);
    }
  }

  lemma SplitIntoAgrees(w: State, source: PanelId, target: PanelId, o: Orientation, d: Direction)
    requires Agrees(w)
    ensures Agrees(SplitInto(w, source, target, o, d))
  {
    hide RemovePanel, AllIds, SelectionsOk, SplitPaneWithPanel, UpdatePane;
    if source != target && source in w.panels && target in w.panels {
      assert target in Elems(AllIds(w.layout));
      var removed := RemovePanel(w.layout, source).0;
      RemovedLayout(w.layout, source);
      SplitLayout(removed, target, source, o, d);
      SplitIsUpdate(removed, target, source, o, d);
    }
  }

  lemma {:induction false} FirstOtherIsOther(ids: seq<PanelId>, p: PanelId)
    ensures FirstOther(ids, p).Some? ==> FirstOther(ids, p).value in ids && FirstOther(ids, p).value != p
    ensures FirstOther(ids, p).None? ==> forall x <- ids :: x == p
  {
    if ids != [] && ids[0] == p {
      FirstOtherIsOther(ids[1..], p);
      assert ids == [ids[0]] + ids[1..];
    }
  }

  /** Dragging moves the panel beside another one; it does nothing only to an absent or sole panel. */
  lemma DragAgrees(w: State, p: PanelId, d: Direction)
    requires Agrees(w)
    ensures Agrees(Drag(w, p, d))
    ensures p in w.panels && DragTarget(w, p).None? ==> w.panels.Keys == {p}
  {
    hide RemovePanel, AllIds, SelectionsOk, SplitPaneWithPanel, UpdatePane, FirstOther;
    FirstOtherIsOther(AllIds(w.layout), p);
    var target := DragTarget(w, p);
    assert forall x :: x in AllIds(w.layout) <==> x in Elems(AllIds(w.layout));
    if p in w.panels && target.Some? {
      var removed := RemovePanel(w.layout, p).0;
      RemovedLayout(w.layout, p);
      SplitLayout(removed, target.value, p, AxisOf(d), d);
      SplitIsUpdate(removed, target.value, p, AxisOf(d), d);
    }
  }

  lemma FocusAgrees(w: State, p: PanelId)
    requires Agrees(w)
    ensures Agrees(Focus(w, p)) && (p in w.panels ==> Focus(w, p).focused == Some(p))
    ensures AllIds(Focus(w, p).layout) == AllIds(w.layout)
  {
    if p in w.panels {
      UpdateIds(w.layout, p, pane => Selected(pane, p));
      AroundPane(w.layout, p);
      UpdateKeeps(w.layout, p, pane => Selected(pane, p));
    }
  }

  /** Swapping two panels in the layout keeps the agreement exactly when both or neither is there. */
  lemma SwapAgreesIff(w: State, a: PanelId, b: PanelId)
    requires Agrees(w)
    ensures Agrees(w.(layout := Swapped(w.layout, a, b))) <==> (a in w.panels <==> b in w.panels)
  {
    SwapOrder(w.layout, a, b);
    SwapKeeps(w.layout, a, b);
    SwapMembers(AllIds(w.layout), a, b);
  }

  /** Reordering a pane's tabs keeps the agreement. */
  lemma ReorderAgrees(w: State, p: PanelId, index: nat)
    requires Agrees(w)
    ensures Agrees(w.(layout := ReorderPanelInPane(w.layout, p, index).0))
  {
    ReorderKeeps(w.layout, p, index);
    if p in AllIds(w.layout) {
      ReorderIds(w.layout, p, index);
      AroundPane(w.layout, p);
      var pre, ids, post := IdsBefore(w.layout, p), PaneOf(w.layout, p).panelIds, IdsAfter(w.layout, p);
      MoveKeepsMembers(ids, p, index);
      MovedMembers(ids, p, index);
      SameMembers(pre, ids, MoveTo(ids, p, index), post);
    } else {
      UpdateAbsent(w.layout, p, pane => TabMoved(pane, p, index));
    }
  }

  lemma MovedMembers(ids: seq<PanelId>, p: PanelId, index: nat)
    requires p in ids
    ensures multiset(MoveTo(ids, p, index)) == multiset(ids)
  {
    var k := IndexOf(ids, p);
    var rest := RemoveFirst(ids, p);
    var i := if index <= |rest| then index else |rest|;
    assert ids == ids[..k] + [p] + ids[k + 1..];
    assert multiset(ids) == multiset(ids[..k] + ids[k + 1..]) + multiset{p};
    assert rest == ids[..k] + ids[k + 1..] && rest == rest[..i] + rest[i..];
    assert multiset(rest[..i] + [p] + rest[i..]) == multiset(rest[..i] + rest[i..]) + multiset{p};
  }

  lemma SameMembers(pre: seq<PanelId>, a: seq<PanelId>, b: seq<PanelId>, post: seq<PanelId>)
    requires multiset(a) == multiset(b) && Distinct(pre + a + post)
    ensures Distinct(pre + b + post) && Elems(pre + b + post) == Elems(pre + a + post)
  {
    var x, y := pre + a + post, pre + b + post;
    assert multiset(x) == multiset(y);
    forall id
      ensures id in Elems(x) <==> id in Elems(y)
    {
      assert id in x <==> id in multiset(x);
      assert id in y <==> id in multiset(y);
    }
    assert Elems(x) == Elems(y);
    assert |multiset(x)| == |x| && |multiset(y)| == |y|;
    ElemsCardinality(x);
    ElemsCardinality(y);
  }

  lemma SwapMembers(ids: seq<PanelId>, a: PanelId, b: PanelId)
    ensures Elems(SwapIds(ids, a, b)) == Elems(ids) <==> (a in Elems(ids) <==> b in Elems(ids))
  {
    var swapped := SwapIds(ids, a, b);
    forall x
      ensures x in Elems(swapped) <==> SwapId(x, a, b) in Elems(ids)
    {
      if x in swapped {
        var i :| 0 <= i < |swapped| && swapped[i] == x;
        assert ids[i] == SwapId(x, a, b);
      }
      if SwapId(x, a, b) in ids {
        var i :| 0 <= i < |ids| && ids[i] == SwapId(x, a, b);
        assert swapped[i] == x;
      }
    }
    assert a in Elems(swapped) <==> b in Elems(ids);
    assert b in Elems(swapped) <==> a in Elems(ids);
  }

  // ---------- any sequence of operations ----------

  datatype Op =
    | DoSplit(o: Orientation, kind: PanelKind, id: PanelId)
    | DoInsert(panel: Panel, o: Orientation)
    | DoRemove(p: PanelId)
    | DoReopen(id: PanelId)
    | DoDetach(p: PanelId)
    | DoMoveToPane(source: PanelId, target: PanelId)
    | DoSplitInto(source: PanelId, target: PanelId, o: Orientation, d: Direction)
    | DoDrag(p: PanelId, d: Direction)
    | DoFocus(p: PanelId)
    | DoSwap(a: PanelId, b: PanelId)
    | DoReorder(p: PanelId, index: nat)

  function Apply(w: State, op: Op): State {
    match op
    case DoSplit(o, kind, id) => SplitWith(w, o, kind, id)
    case DoInsert(panel, o) => Insert(w, panel, o)
    case DoRemove(p) => Remove(w, p)
    case DoReopen(id) => Reopen(w, id)
    case DoDetach(p) => Detach(w, p)
    case DoMoveToPane(source, target) => MoveToPane(w, source, target)
    case DoSplitInto(source, target, o, d) => SplitInto(w, source, target, o, d)
    case DoDrag(p, d) => Drag(w, p, d)
    case DoFocus(p) => Focus(w, p)
    case DoSwap(a, b) => w.(layout := Swapped(w.layout, a, b))
    case DoReorder(p, index) => w.(layout := ReorderPanelInPane(w.layout, p, index).0)
  }

  /** Panels brought in carry an id the workspace does not use yet; a swap names two of its panels. */
  predicate Allowed(w: State, op: Op) {
    match op
    case DoSplit(_, _, id) => id !in w.panels
    case DoInsert(panel, _) => panel.id !in w.panels
    case DoReopen(id) => id !in w.panels
    case DoSwap(a, b) => a in w.panels && b in w.panels
    case _ => true
  }

  function ApplyAll(w: State, ops: seq<Op>): State
    decreases |ops|
  {
    if ops == [] then w else ApplyAll(Apply(w, ops[0]), ops[1..])
  }

  predicate AllAllowed(w: State, ops: seq<Op>)
    decreases |ops|
  {
    ops == [] || (Allowed(w, ops[0]) && AllAllowed(Apply(w, ops[0]), ops[1..]))
  }

  lemma ApplyAgrees(w: State, op: Op)
    requires Agrees(w) && Allowed(w, op)
    ensures Agrees(Apply(w, op))
  {
    hide Agrees;
    match op {
      case DoSplit(o, kind, id) => InsertAgrees(w, Panel(id, SplitKind(kind), KindFile(SplitKind(kind))), o);
      case DoInsert(panel, o) => InsertAgrees(w, panel, o);
      case DoRemove(p) => RemoveAgrees(w, p);
      case DoReopen(id) => ReopenAgrees(w, id);
      case DoDetach(p) => DetachAgrees(w, p);
      case DoMoveToPane(source, target) => MoveToPaneAgrees(w, source, target);
      case DoSplitInto(source, target, o, d) => SplitIntoAgrees(w, source, target, o, d);
      case DoDrag(p, d) => DragAgrees(w, p, d);
      case DoFocus(p) => FocusAgrees(w, p);
      case DoSwap(a, b) => SwapAgreesIff(w, a, b);
      case DoReorder(p, index) => ReorderAgrees(w, p, index);
    }
  }

  /** Layout, panel map and focus agree after any sequence of operations on a workspace. */
  lemma {:induction false} AlwaysAgrees(w: State, ops: seq<Op>)
    requires Agrees(w) && AllAllowed(w, ops)
    ensures Agrees(ApplyAll(w, ops))
    decreases |ops|
  {
    hide Agrees;
    if ops != [] {
      ApplyAgrees(w, ops[0]);
      AlwaysAgrees(Apply(w, ops[0]), ops[1..]);
    }
  }

  /** Splitting off a new panel leaves an empty pane in the tree exactly when there was no panel to
      split beside. */
  lemma InsertTidyIff(w: State, panel: Panel, o: Orientation)
    requires Agrees(w) && Tidy(w.layout) && panel.id !in w.panels
    ensures Tidy(Insert(w, panel, o).layout) <==> w.panels != map[]
  {
    EmptyHasNoIds(w.layout);
    if w.focused.Some? {
      assert w.focused.value in Elems(AllIds(w.layout));
      UpdateKeeps(w.layout, w.focused.value, pane => SplitNode(pane, o, panel.id));
    } else {
      assert w.panels.Keys == {};
      FirstIsMember(AllIds(w.layout));
      if NoEmptyPane(w.layout) {
        FullIsNotEmpty(w.layout);
      }
    }
  }

  /** Reopening gives back the panel just closed, under its new id; a full list of closed panels has
      lost its oldest. */
  lemma ReopenUndoesRemove(w: State, p: PanelId, id: PanelId)
    requires Agrees(w) && p in w.panels && id !in w.panels && |w.closedPanels| <= CLOSED_PANELS_CAP
    ensures var v := Reopen(Remove(w, p), id);
            && v.panels == (w.panels - {p})[id := w.panels[p].(id := id)]
            && v.closedPanels == (if |w.closedPanels| < CLOSED_PANELS_CAP then w.closedPanels else w.closedPanels[1..])
            && v.focused == Some(id)
  {
    var closed := w.closedPanels + [w.panels[p]];
    assert Capped(closed)[|Capped(closed)| - 1] == w.panels[p];
  }

  // ---------- the workspace object ----------

  class Workspace {
    var layout: LayoutNode
    var panels: map<PanelId, Panel>
    var focused: Option<PanelId>
    var previousFocused: Option<PanelId>
    var zoomed: Option<PanelId>
    var attention: Option<PanelId>
    var closedPanels: seq<Panel>

    ghost function View(): State
      reads this
    {
      State(layout, panels, focused, previousFocused, zoomed, attention, closedPanels)
    }

    ghost predicate Valid()
      reads this
    {
      Agrees(View())
    }

    /** A workspace with one terminal. */
    constructor (id: PanelId)
      ensures Valid() && View() == FreshWorkspace(id)
    {
      layout := SinglePane(id);
      panels := map[id := Panel(id, Terminal, None)];
      focused := Some(id);
      previousFocused, zoomed, attention := None, None, None;
      closedPanels := [];
      new;
      FreshAgrees(id);
    }

    /** Insert a panel by splitting the focused pane, or the root when nothing is focused. */
    method InsertPanel(panel: Panel, o: Orientation)
      requires Valid() && panel.id !in panels
      modifies this
      ensures Valid() && View() == Insert(old(View()), panel, o)
    {
      InsertAgrees(View(), panel, o);
      hide Agrees, AllIds, UpdatePane;
      panels := panels[panel.id := panel];
      var splitDone := false;
      if focused.Some? && focused.value in AllIds(layout) {
        layout := UpdatePane(layout, focused.value, pane => SplitNode(pane, o, panel.id));
        splitDone := true;
      }
      if !splitDone {
        layout := SplitNode(layout, o, panel.id);
      }
      previousFocused := focused;
      focused := Some(panel.id);
    }

    method Split(o: Orientation, kind: PanelKind, id: PanelId)
      requires Valid() && id !in panels
      modifies this
      ensures Valid() && View() == SplitWith(old(View()), o, kind, id)
    {
      var kind' := if kind.AgentMonitor? || kind.Graph? then Terminal else kind;
      InsertPanel(Panel(id, kind', KindFile(kind')), o);
    }

    /** Keep a closed panel for reopening; the oldest go first. */
    method RememberClosed(panel: Panel)
      modifies this`closedPanels
      ensures closedPanels == Capped(old(closedPanels) + [panel]) && |closedPanels| <= CLOSED_PANELS_CAP
    {
      closedPanels := closedPanels + [panel];
      if |closedPanels| > CLOSED_PANELS_CAP {
        closedPanels := closedPanels[|closedPanels| - CLOSED_PANELS_CAP..];
      }
    }

    /** Close a panel, remembering it for reopening; focus stays beside it when it was focused. */
    method RemovePanel(p: PanelId) returns (removed: bool)
      requires Valid()
      modifies this
      ensures Valid() && View() == Remove(old(View()), p) && removed == (p in old(panels))
    {
      RemoveAgrees(View(), p);
      hide Agrees, Layout.RemovePanel, AllIds, TabBeside, Capped;
      if p !in panels {
        return false;
      }
      RememberClosed(panels[p]);
      panels := panels - {p};
      var removingFocused := focused == Some(p);
      var neighbor := if removingFocused then TabBeside(layout, p) else None;
      layout := Layout.RemovePanel(layout, p).0;
      if removingFocused {
        focused := if neighbor.Some? && neighbor.value in panels then neighbor else FirstOf(AllIds(layout));
      }
      removed := true;
    }

    /** Reopen the most recently closed panel, under a fresh id, as a tab of the focused pane. */
    method ReopenLastClosedPanel(id: PanelId) returns (reopened: Option<PanelId>)
      requires Valid() && id !in panels
      modifies this
      ensures Valid() && View() == Reopen(old(View()), id)
      ensures reopened == if old(closedPanels) == [] then None else Some(id)
    {
      ReopenAgrees(View(), id);
      hide Agrees, AllIds, AddPanelToPane;
      if closedPanels == [] {
        return None;
      }
      var panel := closedPanels[|closedPanels| - 1].(id := id);
      closedPanels := closedPanels[..|closedPanels| - 1];
      panels := panels[id := panel];
      var target := if focused.Some? then focused else FirstOf(AllIds(layout));
      if target.Some? {
        layout := AddPanelToPane(layout, target.value, id).0;
      } else {
        layout := SinglePane(id);
      }
      previousFocused := focused;
      focused := Some(id);
      reopened := Some(id);
    }

    /** Take a panel out, to be inserted elsewhere. */
    method DetachPanel(p: PanelId) returns (panel: Option<Panel>)
      requires Valid()
      modifies this
      ensures Valid() && View() == Detach(old(View()), p)
      ensures panel == if p in old(panels) then Some(old(panels)[p]) else None
    {
      DetachAgrees(View(), p);
      hide Agrees, Layout.RemovePanel, AllIds;
      if p !in panels {
        return None;
      }
      panel := Some(panels[p]);
      panels := panels - {p};
      layout := Layout.RemovePanel(layout, p).0;
      if focused == Some(p) {
        focused := FirstOf(AllIds(layout));
      }
      if previousFocused == Some(p) {
        previousFocused := None;
      }
      if zoomed == Some(p) {
        zoomed := None;
      }
    }

    /** Move a tab into the pane of another panel; says whether it moved. */
    method MovePanelToPane(source: PanelId, target: PanelId) returns (moved: bool)
      requires Valid()
      modifies this
      ensures Valid() && View() == MoveToPane(old(View()), source, target)
      ensures moved <==> source != target && source in old(panels) && target in old(panels) && !SharePane(old(layout), source, target)
    {
      MoveToPaneAgrees(View(), source, target);
      hide Layout.RemovePanel, AllIds, AddPanelToPane, PaneOf, SelectionsOk;
      if source == target || source !in panels || target !in panels {
        return false;
      }
      if SharePane(layout, source, target) {
        return false;
      }
      RemovedLayout(layout, source);
      assert target in Elems(AllIds(layout));
      layout := Layout.RemovePanel(layout, source).0;
      var added := AddPanelToPane(layout, target, source);
      layout := added.0;
      moved := added.1;
      if moved {
        previousFocused := focused;
        focused := Some(source);
      }
    }

    /** Move a panel into a new pane beside another panel's pane. */
    method SplitPanelIntoPane(source: PanelId, target: PanelId, o: Orientation, d: Direction) returns (moved: bool)
      requires Valid()
      modifies this
      ensures Valid() && View() == SplitInto(old(View()), source, target, o, d)
      ensures moved <==> source != target && source in old(panels) && target in old(panels)
    {
      SplitIntoAgrees(View(), source, target, o, d);
      hide Layout.RemovePanel, AllIds, SplitPaneWithPanel, UpdatePane, SelectionsOk;
      if source == target || source !in panels || target !in panels {
        return false;
      }
      RemovedLayout(layout, source);
      assert target in Elems(AllIds(layout));
      layout := Layout.RemovePanel(layout, source).0;
      SplitIsUpdate(layout, target, source, o, d);
      var split := SplitPaneWithPanel(layout, target, source, o, d);
      layout := split.0;
      moved := split.1;
      if moved {
        previousFocused := focused;
        focused := Some(source);
      }
    }

    /** Drag a panel to one side of the focused pane, or of the first other panel's. */
    method DragToSplit(p: PanelId, d: Direction) returns (moved: bool)
      requires Valid()
      modifies this
      ensures Valid() && View() == Drag(old(View()), p, d)
      ensures moved <==> p in old(panels) && old(panels).Keys != {p}
    {
      DragAgrees(View(), p, d);
      hide Layout.RemovePanel, AllIds, SplitPaneWithPanel, AddPanelToPane, FirstOther, SelectionsOk;
      FirstOtherIsOther(AllIds(layout), p);
      assert forall x :: x in AllIds(layout) <==> x in Elems(AllIds(layout));
      if p !in panels {
        return false;
      }
      var target := if focused == Some(p) then FirstOther(AllIds(layout), p) else focused;
      if target.None? {
        return false;
      }
      assert target.value in panels && target.value != p;
      layout := Layout.RemovePanel(layout, p).0;
      var split := SplitPaneWithPanel(layout, target.value, p, AxisOf(d), d);
      layout := split.0;
      if !split.1 {
        layout := AddPanelToPane(layout, target.value, p).0;
      }
      previousFocused := focused;
      focused := Some(p);
      moved := true;
    }

    method FocusPanel(p: PanelId) returns (focusedNow: bool)
      requires Valid()
      modifies this
      ensures Valid() && View() == Focus(old(View()), p) && focusedNow == (p in panels)
    {
      FocusAgrees(View(), p);
      hide AllIds, UpdatePane, SelectionsOk;
      if p !in panels {
        return false;
      }
      assert p in Elems(AllIds(layout));
      layout := UpdatePane(layout, p, pane => Selected(pane, p));
      if focused != Some(p) {
        previousFocused := focused;
      }
      focused := Some(p);
      focusedNow := true;
    }
  }
}
