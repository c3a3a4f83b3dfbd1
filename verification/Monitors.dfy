// The sub-agent monitor: reconciling a workspace's monitor panes with the transcripts that are live.
module Monitors {
  import opened Common
  import opened Layout
  import opened LayoutOutcomes
  import opened Workspaces
  import opened WorkspaceOutcomes

  predicate IsMonitor(p: Panel) {
    p.kind.AgentMonitor?
  }

  /** A monitor pane on the given transcript. */
  predicate Watches(p: Panel, transcript: string) {
    IsMonitor(p) && p.file == Some(transcript)
  }

  predicate HasMonitor(panels: map<PanelId, Panel>, transcript: string) {
    exists id <- panels :: Watches(panels[id], transcript)
  }

  predicate IsStale(p: Panel, desired: seq<string>) {
    IsMonitor(p) && !(p.file.Some? && p.file.value in desired)
  }

  /** The panels that are not the monitor's business. */
  function Primaries(panels: map<PanelId, Panel>): map<PanelId, Panel> {
    map id | id in panels && !IsMonitor(panels[id]) :: panels[id]
  }

  /** No transcript is shown twice. */
  ghost predicate OnePerTranscript(panels: map<PanelId, Panel>) {
    forall a <- panels, b <- panels :: IsMonitor(panels[a]) && IsMonitor(panels[b]) && panels[a].file == panels[b].file ==> a == b
  }

  /** No wanted transcript is shown twice. */
  ghost predicate WantedOnce(panels: map<PanelId, Panel>, desired: seq<string>) {
    forall a <- panels, b <- panels ::
      IsMonitor(panels[a]) && IsMonitor(panels[b]) && panels[a].file == panels[b].file && !IsStale(panels[a], desired) ==> a == b
  }

  /** Exactly one monitor pane per desired transcript, and no others. */
  ghost predicate Reconciled(panels: map<PanelId, Panel>, desired: seq<string>) {
    && OnePerTranscript(panels)
    && (forall t <- desired :: HasMonitor(panels, t))
    && (forall id <- panels :: !IsStale(panels[id], desired))
  }

  /** The members of `keep`, in the order of `s`. */
  function KeepOnly(s: seq<PanelId>, keep: set<PanelId>): seq<PanelId> {
    if s == [] then [] else (if s[0] in keep then [s[0]] else []) + KeepOnly(s[1..], keep)
  }

  lemma {:induction false} KeepConcat(a: seq<PanelId>, b: seq<PanelId>, keep: set<PanelId>)
    ensures KeepOnly(a + b, keep) == KeepOnly(a, keep) + KeepOnly(b, keep)
  {
    if a == [] {
      EmptyConcat(b);
      EmptyConcat(KeepOnly(b, keep));
    } else {
      ConcatTail(a, b);
      KeepConcat(a[1..], b, keep);
      Assoc(if a[0] in keep then [a[0]] else [], KeepOnly(a[1..], keep), KeepOnly(b, keep));
    }
  }

  lemma KeepWithout(pre: seq<PanelId>, post: seq<PanelId>, p: PanelId, keep: set<PanelId>)
    requires p !in keep
    ensures KeepOnly(pre + [p] + post, keep) == KeepOnly(pre + post, keep)
  {
    KeepConcat(pre + [p], post, keep);
    KeepConcat(pre, [p], keep);
    KeepConcat(pre, post, keep);
  }

  // ---------- one pane off, one pane on ----------

  function DropMonitor(w: State, id: PanelId): State {
    var layout := RemovePanel(w.layout, id).0;
    w.(layout := layout, panels := w.panels - {id},
       focused := if w.focused == Some(id) then FirstOf(AllIds(layout)) else w.focused,
       previousFocused := Cleared(w.previousFocused, id),
       attention := Cleared(w.attention, id),
       zoomed := Cleared(w.zoomed, id))
  }

  function AddMonitor(w: State, anchor: PanelId, id: PanelId, transcript: string, o: Orientation, d: Direction): State {
    w.(layout := SplitPaneWithPanel(w.layout, anchor, id, o, d).0,
       panels := w.panels[id := Panel(id, AgentMonitor, Some(transcript))])
  }

  /** A workspace in agreement whose other panels are `primaries`, laid out in the given order. */
  ghost predicate Keeps(w: State, primaries: map<PanelId, Panel>, order: seq<PanelId>) {
    && Agrees(w)
    && Primaries(w.panels) == primaries
    && KeepOnly(AllIds(w.layout), primaries.Keys) == order
  }

  lemma DropPrimaries(panels: map<PanelId, Panel>, id: PanelId)
    requires id in panels && IsMonitor(panels[id])
    ensures Primaries(panels - {id}) == Primaries(panels) && id !in Primaries(panels)
  {
  }

  lemma DropKeeps(w: State, id: PanelId, primaries: map<PanelId, Panel>, order: seq<PanelId>)
    requires Keeps(w, primaries, order) && id in w.panels && IsMonitor(w.panels[id])
    ensures Keeps(DropMonitor(w, id), primaries, order)
  {
    DropAgrees(w, id);
    DropPrimaries(w.panels, id);
    RemoveIds(w.layout, id);
    var ids := AllIds(w.layout);
    hide AllIds, RemovePanel, Agrees, Primaries;
    DropOrder(ids, id, primaries.Keys);
  }

  lemma DropOrder(ids: seq<PanelId>, id: PanelId, keep: set<PanelId>)
    requires id !in keep
    ensures KeepOnly(RemoveFirst(ids, id), keep) == KeepOnly(ids, keep)
  {
    var i := IndexOf(ids, id);
    if i < |ids| {
      assert ids == ids[..i] + [id] + ids[i + 1..];
      KeepWithout(ids[..i], ids[i + 1..], id, keep);
    }
  }

  lemma DropAgrees(w: State, id: PanelId)
    requires Agrees(w) && id in w.panels
    ensures Agrees(DropMonitor(w, id))
  {
    hide RemovePanel, AllIds, SelectionsOk;
    var v := DropMonitor(w, id);
    RemovedLayout(w.layout, id);
    FirstIsMember(AllIds(v.layout));
    assert v.panels.Keys == w.panels.Keys - {id};
    assert v.panels == map[] <==> v.panels.Keys == {};
  }

  lemma AddKeeps(w: State, anchor: PanelId, id: PanelId, transcript: string, o: Orientation, d: Direction,
                 primaries: map<PanelId, Panel>, order: seq<PanelId>)
    requires Keeps(w, primaries, order) && anchor in w.panels && id !in w.panels
    ensures Keeps(AddMonitor(w, anchor, id, transcript, o, d), primaries, order)
    ensures SplitPaneWithPanel(w.layout, anchor, id, o, d).1
  {
    AddAgrees(w, anchor, id, transcript, o, d);
    AddPrimaries(w.panels, id, transcript);
    assert anchor in Elems(AllIds(w.layout));
    AddOrder(w.layout, anchor, id, o, d, primaries.Keys);
  }

  lemma AddPrimaries(panels: map<PanelId, Panel>, id: PanelId, transcript: string)
    requires id !in panels
    ensures var more := panels[id := Panel(id, AgentMonitor, Some(transcript))];
            Primaries(more) == Primaries(panels) && id !in Primaries(panels)
  {
  }

  /** A pane on a transcript nobody watches yet doubles none. */
  lemma NewOnePerTranscript(panels: map<PanelId, Panel>, id: PanelId, transcript: string)
    requires id !in panels && !HasMonitor(panels, transcript)
    ensures OnePerTranscript(panels[id := Panel(id, AgentMonitor, Some(transcript))]) <==> OnePerTranscript(panels)
  {
    var more := panels[id := Panel(id, AgentMonitor, Some(transcript))];
    assert forall x <- panels :: !Watches(panels[x], transcript);
    if OnePerTranscript(more) {
      forall a, b | a in panels && b in panels && IsMonitor(panels[a]) && IsMonitor(panels[b]) && panels[a].file == panels[b].file
        ensures a == b
      {
        assert more[a] == panels[a] && more[b] == panels[b];
      }
    }
  }

  lemma AddAgrees(w: State, anchor: PanelId, id: PanelId, transcript: string, o: Orientation, d: Direction)
    requires Agrees(w) && anchor in w.panels && id !in w.panels
    ensures Agrees(AddMonitor(w, anchor, id, transcript, o, d)) && SplitPaneWithPanel(w.layout, anchor, id, o, d).1
  {
    hide AllIds, SelectionsOk, SplitPaneWithPanel, UpdatePane;
    assert anchor in Elems(AllIds(w.layout)) && id !in Elems(AllIds(w.layout));
    SplitLayout(w.layout, anchor, id, o, d);
    SplitIsUpdate(w.layout, anchor, id, o, d);
    assert AddMonitor(w, anchor, id, transcript, o, d).panels.Keys == w.panels.Keys + {id};
  }

  lemma AddOrder(t: LayoutNode, anchor: PanelId, id: PanelId, o: Orientation, d: Direction, keep: set<PanelId>)
    requires anchor in AllIds(t) && id !in keep
    ensures KeepOnly(AllIds(SplitPaneWithPanel(t, anchor, id, o, d).0), keep) == KeepOnly(AllIds(t), keep)
  {
    SplitIds(t, anchor, id, o, d);
    AroundPane(t, anchor);
    var pre, ids, post := IdsBefore(t, anchor), PaneOf(t, anchor).panelIds, IdsAfter(t, anchor);
    hide AllIds, SplitPaneWithPanel, IdsBefore, IdsAfter, PaneOf, KeepOnly;
    Assoc(pre, ids, post);
    if NewFirst(d) {
      KeepWithout(pre, ids + post, id, keep);
      Assoc(pre, [id], ids);
      Assoc(pre + [id], ids, post);
    } else {
      KeepWithout(pre + ids, post, id, keep);
      Assoc(pre, ids, [id]);
    }
  }

  // ---------- the reconciler ----------

  /** The first pane in layout order that is not a monitor. */
  function FirstPrimary(ids: seq<PanelId>, panels: map<PanelId, Panel>): Option<PanelId> {
    if ids == [] then None
    else if ids[0] in panels && !IsMonitor(panels[ids[0]]) then Some(ids[0])
    else FirstPrimary(ids[1..], panels)
  }

  lemma {:induction false} FirstPrimaryIsPrimary(ids: seq<PanelId>, panels: map<PanelId, Panel>)
    ensures FirstPrimary(ids, panels).Some? ==> FirstPrimary(ids, panels).value in Primaries(panels)
    ensures FirstPrimary(ids, panels).None? ==> forall id <- ids :: id !in Primaries(panels)
  {
    if ids != [] {
      FirstPrimaryIsPrimary(ids[1..], panels);
      assert ids == [ids[0]] + ids[1..];
    }
  }

  /** The pane to split for the next monitor: the previous monitor's, else the primary one. */
  function Anchor(w: State, previous: Option<PanelId>): Option<PanelId> {
    if previous.Some? then previous
    else if w.focused.Some? && w.focused.value in w.panels && !IsMonitor(w.panels[w.focused.value]) then w.focused
    else FirstPrimary(AllIds(w.layout), w.panels)
  }

  lemma AnchorIsLive(w: State, previous: Option<PanelId>)
    requires Agrees(w) && (previous.Some? ==> previous.value in w.panels)
    ensures Anchor(w, previous).Some? ==> Anchor(w, previous).value in w.panels
    ensures Anchor(w, previous).None? <==> previous.None? && Primaries(w.panels) == map[]
  {
    FirstPrimaryIsPrimary(AllIds(w.layout), w.panels);
    var anchor := Anchor(w, previous);
    if anchor.None? {
      forall id | id in w.panels
        ensures id !in Primaries(w.panels)
      {
        assert id in Elems(AllIds(w.layout));
      }
      assert Primaries(w.panels).Keys == {};
    } else if previous.None? {
      assert !IsMonitor(w.panels[anchor.value]);
      assert anchor.value in Primaries(w.panels);
    }
  }

  /** Monitor panes can be placed: there is a pane to start from, or none is missing. */
  predicate CanPlace(panels: map<PanelId, Panel>, desired: seq<string>) {
    Primaries(panels) != map[] || desired == [] || HasMonitor(panels, desired[0])
  }

  function StaleIds(panels: map<PanelId, Panel>, desired: seq<string>): set<PanelId> {
    set id | id in panels && IsStale(panels[id], desired)
  }

  /** `panels` is `start` less some panes, none of them wanted. */
  ghost predicate OnlyStaleGone(start: map<PanelId, Panel>, panels: map<PanelId, Panel>, desired: seq<string>) {
    && (forall id <- panels :: id in start && panels[id] == start[id])
    && (forall id <- start :: !IsStale(start[id], desired) ==> id in panels)
  }

  lemma OneLessStale(start: map<PanelId, Panel>, panels: map<PanelId, Panel>, desired: seq<string>, id: PanelId)
    requires OnlyStaleGone(start, panels, desired) && id in panels && IsStale(panels[id], desired)
    ensures OnlyStaleGone(start, panels - {id}, desired) && panels - {id} != start
    ensures StaleIds(panels - {id}, desired) == StaleIds(panels, desired) - {id}
  {
    assert id in start && id !in panels - {id};
  }

  /** A mark on a panel that went is cleared; any other stays. */
  function Kept(mark: Option<PanelId>, before: map<PanelId, Panel>, after: map<PanelId, Panel>): Option<PanelId> {
    if mark.Some? && mark.value in before && mark.value !in after then None else mark
  }

  /** From `w` to `v` the focus stays on a panel that stays, and so do the other marks; the list of closed
      panels is untouched. */
  ghost predicate MarksKept(w: State, v: State) {
    && (w.focused.Some? && w.focused.value in v.panels ==> v.focused == w.focused)
    && (w.focused.None? ==> v.focused.None?)
    && v.previousFocused == Kept(w.previousFocused, w.panels, v.panels)
    && v.attention == Kept(w.attention, w.panels, v.panels)
    && v.zoomed == Kept(w.zoomed, w.panels, v.panels)
    && v.closedPanels == w.closedPanels
  }

  /** A focus on a panel that went moves to the first panel left. */
  ghost predicate FocusFalls(w: State, v: State) {
    w.focused.Some? && w.focused.value !in v.panels ==>
      v.focused == if AllIds(v.layout) == [] then None else Some(AllIds(v.layout)[0])
  }

  lemma FocusAfterDrop(w: State, v: State, id: PanelId)
    requires MarksKept(w, v) && FocusFalls(w, v) && id in v.panels
    ensures FocusFalls(w, DropMonitor(v, id))
  {
    RemoveIds(v.layout, id);
    FirstStays(AllIds(v.layout), id);
    hide AllIds, RemovePanel, RemoveFirst;
  }

  lemma FirstStays(ids: seq<PanelId>, id: PanelId)
    ensures ids != [] && ids[0] != id ==> RemoveFirst(ids, id) != [] && RemoveFirst(ids, id)[0] == ids[0]
    ensures ids == [] ==> RemoveFirst(ids, id) == []
  {
  }

  lemma MarksAfterDrop(w: State, v: State, id: PanelId)
    requires Agrees(v) && MarksKept(w, v) && id in v.panels && id in w.panels && v.panels.Keys <= w.panels.Keys
    ensures MarksKept(w, DropMonitor(v, id))
  {
    hide Agrees, RemovePanel, AllIds;
  }

  method DropOne(ws: Workspace, id: PanelId)
    modifies ws
    ensures ws.View() == DropMonitor(old(ws.View()), id)
  {
    ws.layout := RemovePanel(ws.layout, id).0;
    ws.panels := ws.panels - {id};
    if ws.focused == Some(id) {
      ws.focused := FirstOf(AllIds(ws.layout));
    }
    if ws.previousFocused == Some(id) {
      ws.previousFocused := None;
    }
    if ws.attention == Some(id) {
      ws.attention := None;
    }
    if ws.zoomed == Some(id) {
      ws.zoomed := None;
    }
  }

  /** Drop every monitor pane whose transcript is no longer wanted, in any order. */
  method DropStale(ws: Workspace, desired: seq<string>, ghost primaries: map<PanelId, Panel>, ghost order: seq<PanelId>)
    returns (changed: bool)
    requires Keeps(ws.View(), primaries, order)
    modifies ws
    ensures Keeps(ws.View(), primaries, order)
    ensures OnlyStaleGone(old(ws.panels), ws.panels, desired) && StaleIds(ws.panels, desired) == {}
    ensures MarksKept(old(ws.View()), ws.View()) && FocusFalls(old(ws.View()), ws.View())
    ensures changed <==> ws.panels != old(ws.panels)
    ensures !changed ==> ws.View() == old(ws.View())
  {
    hide Keeps, AllIds, RemovePanel, StaleIds, IsStale;
    ghost var before := ws.View();
    KeepsAgrees(before, primaries, order);
    assert MarksKept(before, before) && FocusFalls(before, before);
    hide MarksKept, FocusFalls;
    var stale := StaleIds(ws.panels, desired);
    ghost var start := ws.panels;
    changed := false;
    while stale != {}
      invariant Keeps(ws.View(), primaries, order)
      invariant MarksKept(before, ws.View()) && FocusFalls(before, ws.View())
      invariant stale == StaleIds(ws.panels, desired) && OnlyStaleGone(start, ws.panels, desired)
      invariant changed <==> ws.panels != start
      invariant !changed ==> ws.View() == old(ws.View())
      decreases stale
    {
      var id :| id in stale;
      StaleIsMonitor(ws.panels, desired, id);
      DropKeeps(ws.View(), id, primaries, order);
      KeepsAgrees(ws.View(), primaries, order);
      MarksAfterDrop(before, ws.View(), id);
      FocusAfterDrop(before, ws.View(), id);
      OneLessStale(start, ws.panels, desired, id);
      stale := stale - {id};
      DropOne(ws, id);
      changed := true;
    }
  }

  lemma StaleIsMonitor(panels: map<PanelId, Panel>, desired: seq<string>, id: PanelId)
    requires id in StaleIds(panels, desired)
    ensures id in panels && IsStale(panels[id], desired) && IsMonitor(panels[id])
  {
  }

  function MonitorIds(panels: map<PanelId, Panel>): set<PanelId> {
    set id | id in panels && IsMonitor(panels[id])
  }

  function CountMonitors(panels: map<PanelId, Panel>): nat {
    |MonitorIds(panels)|
  }

  predicate IsAdded(start: map<PanelId, Panel>, p: Panel, desired: seq<string>) {
    IsMonitor(p) && p.file.Some? && p.file.value in desired && !HasMonitor(start, p.file.value)
  }

  /** `panels` is `start` with monitor panes added, under new ids, on wanted transcripts that had none. */
  ghost predicate OnlyWantedAdded(start: map<PanelId, Panel>, panels: map<PanelId, Panel>, desired: seq<string>, newIds: seq<PanelId>) {
    && (forall id <- start :: id in panels && panels[id] == start[id])
    && (forall id <- panels :: id in start || (id in newIds && IsAdded(start, panels[id], desired)))
  }

  ghost predicate AllWatched(panels: map<PanelId, Panel>, desired: seq<string>) {
    forall t <- desired :: HasMonitor(panels, t)
  }

  lemma OneMoreWanted(start: map<PanelId, Panel>, panels: map<PanelId, Panel>, desired: seq<string>, newIds: seq<PanelId>, id: PanelId, path: string, done: seq<string>)
    requires OnlyWantedAdded(start, panels, desired, newIds) && id !in panels && path in desired && AllWatched(panels, done)
    requires !HasMonitor(panels, path)
    ensures var more := panels[id := Panel(id, AgentMonitor, Some(path))];
            && OnlyWantedAdded(start, more, desired, newIds + [id]) && more != start
            && AllWatched(more, done + [path])
  {
    var more := panels[id := Panel(id, AgentMonitor, Some(path))];
    assert id in newIds + [id] && forall x <- newIds :: x in newIds + [id];
    assert Watches(more[id], path);
    assert id !in start;
    forall t | t in done + [path]
      ensures HasMonitor(more, t)
    {
      if t in done {
        var other :| other in panels && Watches(panels[other], t);
        assert Watches(more[other], t);
      }
    }
  }

  lemma OneMoreWatched(panels: map<PanelId, Panel>, done: seq<string>, path: string)
    requires AllWatched(panels, done) && HasMonitor(panels, path)
    ensures AllWatched(panels, done + [path])
  {
  }

  lemma IdsGrow(start: map<PanelId, Panel>, panels: map<PanelId, Panel>, desired: seq<string>, newIds: seq<PanelId>, id: PanelId)
    requires OnlyWantedAdded(start, panels, desired, newIds)
    ensures OnlyWantedAdded(start, panels, desired, newIds + [id])
  {
  }

  /** The new pane comes after its anchor's: the previous monitor, else the focused panel if it is no
      monitor, else some other panel that is none; side by side for an even count of monitors, below for
      an odd one. */
  ghost predicate TiledAs(w: State, v: State, previous: Option<PanelId>, id: PanelId, monitorCount: nat, anchor: PanelId, pane: LayoutNode) {
    && PaneWith(pane, anchor)
    && PutBeside(w.layout, v.layout, pane, id, if monitorCount % 2 == 0 then Horizontal else Vertical, false)
    && (if previous.Some? then anchor == previous.value
        else
          && anchor in w.panels && w.panels[anchor].kind != AgentMonitor
          && (w.focused.Some? && w.focused.value in w.panels && w.panels[w.focused.value].kind != AgentMonitor ==> w.focused == Some(anchor)))
  }

  lemma Tiles(w: State, previous: Option<PanelId>, anchor: PanelId, id: PanelId, path: string, monitorCount: nat) returns (pane: LayoutNode)
    requires Agrees(w) && anchor in w.panels
    requires if previous.Some? then anchor == previous.value
             else
               && !IsMonitor(w.panels[anchor])
               && (w.focused.Some? && w.focused.value in w.panels && !IsMonitor(w.panels[w.focused.value]) ==> w.focused == Some(anchor))
    ensures var o, d := if monitorCount % 2 == 0 then Horizontal else Vertical, if monitorCount % 2 == 0 then Right else Down;
            TiledAs(w, AddMonitor(w, anchor, id, path, o, d), previous, id, monitorCount, anchor, pane)
  {
    FocusInLayout(w, anchor);
    pane := SplitReplaces(w.layout, anchor, id, if monitorCount % 2 == 0 then Horizontal else Vertical, if monitorCount % 2 == 0 then Right else Down);
    hide Agrees, AllIds, SplitPaneWithPanel, Replaced;
  }

  /** Open one pane beside its anchor. Splitting the anchor's pane cannot fail, because an anchor is
      always in the layout. */
  method AddOne(ws: Workspace, previous: Option<PanelId>, id: PanelId, path: string, monitorCount: nat,
                ghost primaries: map<PanelId, Panel>, ghost order: seq<PanelId>)
    returns (added: bool, ghost anchor: PanelId, ghost pane: LayoutNode)
    requires Keeps(ws.View(), primaries, order) && (previous.Some? ==> previous.value in ws.panels)
    requires id !in ws.panels
    modifies ws`panels, ws`layout
    ensures Keeps(ws.View(), primaries, order)
    ensures added <==> previous.Some? || primaries != map[]
    ensures added ==> ws.panels == old(ws.panels)[id := Panel(id, AgentMonitor, Some(path))]
    ensures added ==> TiledAs(old(ws.View()), ws.View(), previous, id, monitorCount, anchor, pane)
    ensures !added ==> ws.View() == old(ws.View())
  {
    anchor, pane := 0, ws.layout;
    KeepsAgrees(ws.View(), primaries, order);
    FirstPrimaryIsPrimary(AllIds(ws.layout), ws.panels);
    AnchorIsLive(ws.View(), previous);
    hide Keeps, Agrees, AllIds, SplitPaneWithPanel, Primaries, FirstPrimary, TiledAs;
    var from := if previous.Some? then previous
                else if ws.focused.Some? && ws.focused.value in ws.panels && !IsMonitor(ws.panels[ws.focused.value]) then ws.focused
                else FirstPrimary(AllIds(ws.layout), ws.panels);
    if from.None? {
      added := false;
      return;
    }
    anchor := from.value;
    var o, d := if monitorCount % 2 == 0 then Horizontal else Vertical, if monitorCount % 2 == 0 then Right else Down;
    AddKeeps(ws.View(), from.value, id, path, o, d, primaries, order);
    pane := Tiles(ws.View(), previous, anchor, id, path, monitorCount);
    ws.panels := ws.panels[id := Panel(id, AgentMonitor, Some(path))];
    var split := SplitPaneWithPanel(ws.layout, from.value, id, o, d);
    ws.layout := split.0;
    added := true;
  }

  /** Where the pane for the next wanted transcript goes: after the monitor of the one before, the first
      after some other panel. */
  predicate Follows(w: State, previous: Option<PanelId>, desired: seq<string>, j: nat)
    requires j < |desired|
  {
    if j == 0 then previous.None?
    else previous.Some? && previous.value in w.panels && Watches(w.panels[previous.value], desired[j - 1])
  }

  /** One wanted transcript placed: nothing changes if it has a pane, and else its new pane is tiled by the
      number of monitors there are. */
  ghost predicate PlacedNext(w: State, v: State, desired: seq<string>, newIds: seq<PanelId>, j: nat) {
    && j < |desired| == |newIds|
    && if HasMonitor(w.panels, desired[j]) then v == w
       else
         var count := |set id | id in w.panels && w.panels[id].kind == AgentMonitor|;
         exists previous, anchor, pane :: TiledAs(w, v, previous, newIds[j], count, anchor, pane) && Follows(w, previous, desired, j)
  }

  /** The states between the placing of one wanted transcript and the next. */
  ghost predicate PlacedInTurn(trace: seq<State>, desired: seq<string>, newIds: seq<PanelId>) {
    0 < |trace| && forall j :: 0 <= j < |trace| - 1 ==> PlacedNext(trace[j], trace[j + 1], desired, newIds, j)
  }

  /** The first `k` wanted transcripts placed, and what the next one needs. */
  ghost predicate InTurn(trace: seq<State>, before: State, now: State, previous: Option<PanelId>, count: nat,
                         desired: seq<string>, newIds: seq<PanelId>, k: nat) {
    && k <= |desired| == |newIds| && |trace| == k + 1 && trace[0] == before && trace[k] == now
    && PlacedInTurn(trace, desired, newIds) && count == CountMonitors(now.panels)
    && (k < |desired| ==> Follows(now, previous, desired, k))
  }

  lemma OneMorePlaced(trace: seq<State>, v: State, desired: seq<string>, newIds: seq<PanelId>)
    requires PlacedInTurn(trace, desired, newIds) && PlacedNext(trace[|trace| - 1], v, desired, newIds, |trace| - 1)
    ensures PlacedInTurn(trace + [v], desired, newIds)
  {
    hide PlacedNext;
  }

  /** A transcript that has a pane: nothing changes. */
  lemma AlreadyPlaced(trace: seq<State>, before: State, now: State, previous: Option<PanelId>, count: nat,
                      desired: seq<string>, newIds: seq<PanelId>, k: nat, id: PanelId)
    requires InTurn(trace, before, now, previous, count, desired, newIds, k)
    requires k < |desired| && id in now.panels && Watches(now.panels[id], desired[k])
    ensures InTurn(trace + [now], before, now, Some(id), count, desired, newIds, k + 1)
  {
    assert PlacedNext(now, now, desired, newIds, k);
    hide PlacedNext, CountMonitors;
    OneMorePlaced(trace, now, desired, newIds);
  }

  lemma TiledNext(w: State, v: State, previous: Option<PanelId>, desired: seq<string>, newIds: seq<PanelId>, j: nat,
                  count: nat, anchor: PanelId, pane: LayoutNode)
    requires j < |desired| == |newIds| && !HasMonitor(w.panels, desired[j]) && count == CountMonitors(w.panels)
    requires Follows(w, previous, desired, j) && TiledAs(w, v, previous, newIds[j], count, anchor, pane)
    ensures PlacedNext(w, v, desired, newIds, j)
  {
    assert MonitorIds(w.panels) == set id | id in w.panels && w.panels[id].kind == AgentMonitor;
    hide TiledAs;
  }

  /** A new pane tiled: there is one monitor more, and the next pane comes after it. */
  lemma NextTiled(trace: seq<State>, before: State, now: State, v: State, previous: Option<PanelId>, count: nat,
                  desired: seq<string>, newIds: seq<PanelId>, k: nat, anchor: PanelId, pane: LayoutNode)
    requires InTurn(trace, before, now, previous, count, desired, newIds, k)
    requires k < |desired| && !HasMonitor(now.panels, desired[k]) && newIds[k] !in now.panels
    requires TiledAs(now, v, previous, newIds[k], count, anchor, pane)
    requires v.panels == now.panels[newIds[k] := Panel(newIds[k], AgentMonitor, Some(desired[k]))]
    ensures InTurn(trace + [v], before, v, Some(newIds[k]), count + 1, desired, newIds, k + 1)
  {
    TiledNext(now, v, previous, desired, newIds, k, count, anchor, pane);
    CountGrows(now.panels, newIds[k], desired[k]);
    hide PlacedNext, HasMonitor, TiledAs, CountMonitors;
    OneMorePlaced(trace, v, desired, newIds);
  }

  lemma CountGrows(panels: map<PanelId, Panel>, id: PanelId, path: string)
    requires id !in panels
    ensures CountMonitors(panels[id := Panel(id, AgentMonitor, Some(path))]) == CountMonitors(panels) + 1
  {
    var more := panels[id := Panel(id, AgentMonitor, Some(path))];
    assert MonitorIds(more) == MonitorIds(panels) + {id};
  }

  /** What holds after the first `k` wanted transcripts. */
  ghost predicate Placed(start: map<PanelId, Panel>, panels: map<PanelId, Panel>, desired: seq<string>, newIds: seq<PanelId>, k: nat) {
    && k <= |desired| == |newIds|
    && AllWatched(panels, desired[..k]) && OnlyWantedAdded(start, panels, desired, newIds[..k])
    && (OnePerTranscript(panels) <==> OnePerTranscript(start))
  }

  lemma PlacedWatched(start: map<PanelId, Panel>, panels: map<PanelId, Panel>, desired: seq<string>, newIds: seq<PanelId>, k: nat, id: PanelId)
    requires Placed(start, panels, desired, newIds, k) && k < |desired| && id in panels && Watches(panels[id], desired[k])
    ensures Placed(start, panels, desired, newIds, k + 1)
    ensures k == 0 ==> CanPlace(start, desired)
  {
    if k == 0 {
      assert id in start;
    }
    hide OnePerTranscript, OnlyWantedAdded;
    Watched(panels, id, desired[k]);
    SplitAt(newIds, k);
    SplitAt(desired, k);
    OneMoreWatched(panels, desired[..k], desired[k]);
    IdsGrow(start, panels, desired, newIds[..k], newIds[k]);
  }

  lemma PlacedAdded(start: map<PanelId, Panel>, panels: map<PanelId, Panel>, desired: seq<string>, newIds: seq<PanelId>, k: nat)
    requires Placed(start, panels, desired, newIds, k) && k < |desired| && forall id <- panels :: !Watches(panels[id], desired[k])
    requires Distinct(newIds) && newIds[k] !in start
    ensures newIds[k] !in panels && !HasMonitor(panels, desired[k])
    ensures var more := panels[newIds[k] := Panel(newIds[k], AgentMonitor, Some(desired[k]))];
            more != start && Placed(start, more, desired, newIds, k + 1)
  {
    SplitAt(newIds, k);
    SplitAt(desired, k);
    Unwatched(panels, desired[k]);
    NewIsUnused(start, panels, desired, newIds, k);
    hide OnePerTranscript, OnlyWantedAdded, AllWatched;
    OneMoreWanted(start, panels, desired, newIds[..k], newIds[k], desired[k], desired[..k]);
    NewOnePerTranscript(panels, newIds[k], desired[k]);
  }

  /** The loop went through, or stopped at a transcript nobody watches. */
  lemma PlacedOutcome(start: map<PanelId, Panel>, panels: map<PanelId, Panel>, desired: seq<string>, newIds: seq<PanelId>, k: nat)
    requires Placed(start, panels, desired, newIds, k)
    ensures OnlyWantedAdded(start, panels, desired, newIds)
    ensures k == |desired| ==> AllWatched(panels, desired)
    ensures k < |desired| && !HasMonitor(panels, desired[k]) ==> !AllWatched(panels, desired)
  {
    AllOrNothing(panels, desired, k);
    IdsSuffice(start, panels, desired, newIds, k);
  }

  /** Open a pane for every wanted transcript that has none. */
  method AddMissing(ws: Workspace, desired: seq<string>, newIds: seq<PanelId>,
                    ghost primaries: map<PanelId, Panel>, ghost order: seq<PanelId>) returns (changed: bool, ghost trace: seq<State>)
    requires Keeps(ws.View(), primaries, order) && primaries == Primaries(ws.panels)
    requires |newIds| == |desired| && Distinct(newIds) && forall k :: 0 <= k < |newIds| ==> newIds[k] !in ws.panels
    modifies ws`panels, ws`layout
    ensures Keeps(ws.View(), primaries, order) && OnlyWantedAdded(old(ws.panels), ws.panels, desired, newIds)
    ensures AllWatched(ws.panels, desired) <==> old(CanPlace(ws.panels, desired))
    ensures OnePerTranscript(ws.panels) <==> old(OnePerTranscript(ws.panels))
    ensures !old(CanPlace(ws.panels, desired)) ==> !changed
    ensures PlacedInTurn(trace, desired, newIds) && trace[0] == old(ws.View()) && trace[|trace| - 1] == ws.View()
    ensures changed <==> ws.panels != old(ws.panels)
    ensures !changed ==> ws.View() == old(ws.View())
  {
    ghost var start, before := ws.panels, ws.View();
    ghost var now := before;
    NothingPlaced(start, desired, newIds);
    trace := [before];
    var previous: Option<PanelId> := None;
    var monitorCount := CountMonitors(ws.panels);
    changed := false;
    var k := 0;
    assert InTurn(trace, before, now, previous, monitorCount, desired, newIds, 0);
    hide Keeps, AllWatched, OnlyWantedAdded, OnePerTranscript, Primaries, HasMonitor, CountMonitors, Placed, TiledAs, InTurn, PlacedInTurn, Watches;
    while k < |desired|
      invariant k <= |desired| && ws.View() == now && Keeps(now, primaries, order)
      invariant InTurn(trace, before, now, previous, monitorCount, desired, newIds, k)
      invariant previous.Some? ==> previous.value in now.panels
      invariant if k == 0 then !changed && previous.None? else previous.Some? && CanPlace(start, desired)
      invariant Placed(start, now.panels, desired, newIds, k)
      invariant changed <==> now.panels != start
      invariant !changed ==> now == before
    {
      var path := desired[k];
      if existing :| existing in ws.panels && Watches(ws.panels[existing], path) {
        PlacedWatched(start, now.panels, desired, newIds, k, existing);
        AlreadyPlaced(trace, before, now, previous, monitorCount, desired, newIds, k, existing);
        trace := trace + [now];
        previous := Some(existing);
        k := k + 1;
        continue;
      }
      PlacedAdded(start, now.panels, desired, newIds, k);
      var added, anchor, pane := AddOne(ws, previous, newIds[k], path, monitorCount, primaries, order);
      if !added {
        break;
      }
      NextTiled(trace, before, now, ws.View(), previous, monitorCount, desired, newIds, k, anchor, pane);
      now := ws.View();
      trace := trace + [now];
      previous := Some(newIds[k]);
      monitorCount := monitorCount + 1;
      changed := true;
      k := k + 1;
    }
    TraceEnds(trace, before, now, previous, monitorCount, desired, newIds, k);
    PlacedOutcome(start, now.panels, desired, newIds, k);
    OnceKept(start, now.panels, desired, newIds, k);
  }

  lemma TraceEnds(trace: seq<State>, before: State, now: State, previous: Option<PanelId>, count: nat,
                  desired: seq<string>, newIds: seq<PanelId>, k: nat)
    requires InTurn(trace, before, now, previous, count, desired, newIds, k)
    ensures PlacedInTurn(trace, desired, newIds) && |trace| > 0 && trace[0] == before && trace[|trace| - 1] == now
  {
  }

  lemma NothingPlaced(start: map<PanelId, Panel>, desired: seq<string>, newIds: seq<PanelId>)
    requires |desired| == |newIds|
    ensures Placed(start, start, desired, newIds, 0)
  {
    NothingAdded(start, desired);
    assert desired[..0] == [] && newIds[..0] == [];
  }

  lemma OnceKept(start: map<PanelId, Panel>, panels: map<PanelId, Panel>, desired: seq<string>, newIds: seq<PanelId>, k: nat)
    requires Placed(start, panels, desired, newIds, k)
    ensures OnePerTranscript(panels) <==> OnePerTranscript(start)
  {
  }

  lemma Watched(panels: map<PanelId, Panel>, id: PanelId, path: string)
    requires id in panels && Watches(panels[id], path)
    ensures HasMonitor(panels, path)
  {
  }

  lemma Unwatched(panels: map<PanelId, Panel>, path: string)
    requires forall id <- panels :: !Watches(panels[id], path)
    ensures !HasMonitor(panels, path)
  {
  }

  lemma NothingAdded(start: map<PanelId, Panel>, desired: seq<string>)
    ensures OnlyWantedAdded(start, start, desired, []) && AllWatched(start, [])
  {
  }

  lemma SplitAt<T>(s: seq<T>, k: nat)
    requires k < |s|
    ensures s[..k + 1] == s[..k] + [s[k]]
  {
  }

  lemma NewIsUnused(start: map<PanelId, Panel>, panels: map<PanelId, Panel>, desired: seq<string>, newIds: seq<PanelId>, k: nat)
    requires k < |newIds| && Distinct(newIds) && newIds[k] !in start
    requires OnlyWantedAdded(start, panels, desired, newIds[..k])
    ensures newIds[k] !in panels
  {
  }

  lemma IdsSuffice(start: map<PanelId, Panel>, panels: map<PanelId, Panel>, desired: seq<string>, newIds: seq<PanelId>, k: nat)
    requires k <= |newIds| && OnlyWantedAdded(start, panels, desired, newIds[..k])
    ensures OnlyWantedAdded(start, panels, desired, newIds)
  {
  }

  /** All transcripts are watched when the loop ran through; one is not when it stopped early. */
  lemma AllOrNothing(panels: map<PanelId, Panel>, desired: seq<string>, k: nat)
    requires k <= |desired| && AllWatched(panels, desired[..k])
    ensures k == |desired| ==> AllWatched(panels, desired)
    ensures k < |desired| && !HasMonitor(panels, desired[k]) ==> !AllWatched(panels, desired)
  {
    if k == |desired| {
      assert desired[..k] == desired;
    } else {
      assert desired[k] in desired;
    }
  }

  lemma KeepsAgrees(w: State, primaries: map<PanelId, Panel>, order: seq<PanelId>)
    requires Keeps(w, primaries, order)
    ensures Agrees(w) && Primaries(w.panels) == primaries
  {
  }

  /** There is something to do: an unwanted pane, or a wanted transcript without one that can be
      placed. */
  ghost predicate NeedsSync(panels: map<PanelId, Panel>, desired: seq<string>) {
    StaleIds(panels, desired) != {} || (CanPlace(panels, desired) && !AllWatched(panels, desired))
  }

  /** Reconcile a workspace's monitor panes with the wanted transcripts. Afterwards the agreement
      holds, the other panels are untouched and in their order, and there is exactly one monitor per
      wanted transcript exactly when monitors can be placed and no wanted transcript was shown twice
      before. It changes something exactly when there is something to do, and leaves nothing to do. */
  method SyncWorkspace(ws: Workspace, desired: seq<string>, newIds: seq<PanelId>) returns (changed: bool, ghost trace: seq<State>)
    requires ws.Valid()
    requires |newIds| == |desired| && Distinct(newIds) && forall k :: 0 <= k < |newIds| ==> newIds[k] !in ws.panels
    modifies ws
    ensures ws.Valid()
    ensures Primaries(ws.panels) == old(Primaries(ws.panels))
    ensures KeepOnly(AllIds(ws.layout), Primaries(ws.panels).Keys) == old(KeepOnly(AllIds(ws.layout), Primaries(ws.panels).Keys))
    ensures Reconciled(ws.panels, desired) <==> old(CanPlace(ws.panels, desired) && WantedOnce(ws.panels, desired))
    ensures OnePerTranscript(ws.panels) <==> old(WantedOnce(ws.panels, desired))
    ensures changed <==> ws.panels != old(ws.panels)
    ensures changed <==> old(NeedsSync(ws.panels, desired))
    ensures !changed ==> ws.View() == old(ws.View())
    ensures !NeedsSync(ws.panels, desired)
    ensures MarksKept(old(ws.View()), ws.View())
    ensures PlacedInTurn(trace, desired, newIds) && trace[|trace| - 1] == ws.View()
    ensures OnlyStaleGone(old(ws.panels), trace[0].panels, desired)
    ensures FocusFalls(old(ws.View()), trace[0]) && ws.focused == trace[0].focused
  {
    ghost var before := ws.View();
    ghost var primaries := Primaries(ws.panels);
    ghost var order := KeepOnly(AllIds(ws.layout), primaries.Keys);
    ghost var start := ws.panels;
    var dropped := DropStale(ws, desired, primaries, order);
    ghost var kept, between := ws.panels, ws.View();
    StaysPlaceable(start, kept, desired);
    KeptIds(start, kept, desired);
    var added, placed := AddMissing(ws, desired, newIds, primaries, order);
    trace := placed;
    changed := dropped || added;
    KeepsAgrees(ws.View(), primaries, order);
    KeepsOrder(ws.View(), primaries, order);
    hide Keeps, Agrees, AllIds, Primaries, KeepOnly, OnePerTranscript, WantedOnce, AllWatched, OnlyWantedAdded,
      StaleIds, Reconciled, OnlyStaleGone, CanPlace, MarksKept, FocusFalls, PlacedInTurn;
    MarksAfterAdd(before, between, ws.View(), desired, newIds);
    KeptOnce(start, kept, desired);
    SyncOutcome(start, kept, ws.panels, desired, newIds);
  }

  lemma MarksAfterAdd(w: State, between: State, v: State, desired: seq<string>, newIds: seq<PanelId>)
    requires MarksKept(w, between) && v == between.(panels := v.panels, layout := v.layout) && (w.focused.Some? ==> w.focused.value in w.panels)
    requires OnlyWantedAdded(between.panels, v.panels, desired, newIds) && OnlyStaleGone(w.panels, between.panels, desired)
    requires forall k :: 0 <= k < |newIds| ==> newIds[k] !in w.panels
    ensures MarksKept(w, v)
  {
    assert forall id <- w.panels :: id in between.panels <==> id in v.panels;
  }

  lemma KeptIds(start: map<PanelId, Panel>, kept: map<PanelId, Panel>, desired: seq<string>)
    requires OnlyStaleGone(start, kept, desired)
    ensures forall id :: id !in start ==> id !in kept
  {
  }

  lemma KeepsOrder(w: State, primaries: map<PanelId, Panel>, order: seq<PanelId>)
    requires Keeps(w, primaries, order)
    ensures KeepOnly(AllIds(w.layout), primaries.Keys) == order
  {
  }

  /** Dropping stale panes does not change whether monitors can be placed. */
  lemma StaysPlaceable(start: map<PanelId, Panel>, kept: map<PanelId, Panel>, desired: seq<string>)
    requires OnlyStaleGone(start, kept, desired) && Primaries(kept) == Primaries(start)
    ensures CanPlace(kept, desired) == CanPlace(start, desired)
  {
    if desired != [] && HasMonitor(start, desired[0]) {
      var id :| id in start && Watches(start[id], desired[0]);
      assert id in kept;
    }
  }

  /** With the stale panes gone, nothing is shown twice exactly when nothing wanted was. */
  lemma KeptOnce(start: map<PanelId, Panel>, kept: map<PanelId, Panel>, desired: seq<string>)
    requires OnlyStaleGone(start, kept, desired) && StaleIds(kept, desired) == {}
    ensures OnePerTranscript(kept) <==> WantedOnce(start, desired)
  {
    forall id | id in kept
      ensures !IsStale(kept[id], desired)
    {
      assert id !in StaleIds(kept, desired);
    }
    if OnePerTranscript(kept) {
      forall a, b | a in start && b in start && IsMonitor(start[a]) && IsMonitor(start[b])
                    && start[a].file == start[b].file && !IsStale(start[a], desired)
        ensures a == b
      {
        assert a in kept && b in kept;
      }
    }
  }

  /** What the two passes amount to. */
  lemma SyncOutcome(start: map<PanelId, Panel>, kept: map<PanelId, Panel>, after: map<PanelId, Panel>, desired: seq<string>, newIds: seq<PanelId>)
    requires OnlyStaleGone(start, kept, desired) && StaleIds(kept, desired) == {}
    requires OnlyWantedAdded(kept, after, desired, newIds)
    requires forall k :: 0 <= k < |newIds| ==> newIds[k] !in start
    requires CanPlace(kept, desired) == CanPlace(start, desired)
    requires AllWatched(after, desired) <==> CanPlace(kept, desired)
    requires !CanPlace(kept, desired) ==> after == kept
    ensures Reconciled(after, desired) <==> AllWatched(after, desired) && OnePerTranscript(after)
    ensures after == start <==> kept == start && after == kept
    ensures after != start <==> NeedsSync(start, desired)
    ensures !NeedsSync(after, desired)
  {
    NoneStale(kept, after, desired, newIds);
    hide OnePerTranscript;
    if after == start {
      NotBack(start, kept, after, desired, newIds);
    }
    if StaleIds(start, desired) == {} {
      assert forall id <- start :: id !in StaleIds(start, desired);
      assert kept == start;
    } else {
      var id :| id in StaleIds(start, desired);
      assert id !in StaleIds(kept, desired);
      assert kept != start;
    }
    if AllWatched(kept, desired) {
      NothingMissing(kept, after, desired, newIds);
    }
  }

  lemma NoneStale(kept: map<PanelId, Panel>, after: map<PanelId, Panel>, desired: seq<string>, newIds: seq<PanelId>)
    requires OnlyWantedAdded(kept, after, desired, newIds) && StaleIds(kept, desired) == {}
    ensures StaleIds(after, desired) == {} && forall id <- after :: !IsStale(after[id], desired)
  {
    forall id | id in after
      ensures !IsStale(after[id], desired)
    {
      if id in kept {
        assert id !in StaleIds(kept, desired);
      }
    }
  }

  lemma NotBack(start: map<PanelId, Panel>, kept: map<PanelId, Panel>, after: map<PanelId, Panel>, desired: seq<string>, newIds: seq<PanelId>)
    requires OnlyStaleGone(start, kept, desired) && OnlyWantedAdded(kept, after, desired, newIds) && after == start
    requires forall k :: 0 <= k < |newIds| ==> newIds[k] !in start
    ensures kept == start
  {
    forall id | id in start
      ensures id in kept
    {
    }
  }

  /** A pane is added only on a transcript that had none. */
  lemma NothingMissing(kept: map<PanelId, Panel>, after: map<PanelId, Panel>, desired: seq<string>, newIds: seq<PanelId>)
    requires OnlyWantedAdded(kept, after, desired, newIds) && AllWatched(kept, desired)
    ensures after == kept
  {
    forall id | id in after
      ensures id in kept
    {
    }
  }

  // ---------- how a transcript comes to be shown twice ----------

  /** Close a monitor tab, let the monitor open a new one for its transcript, and reopen the closed
      tab: the workspace agrees, but the transcript is shown twice, and by the contract of
      `SyncWorkspace` stays so for as long as it is wanted. */
  lemma ReopenDoubles(w: State, p: PanelId, t: string, anchor: PanelId, o: Orientation, d: Direction, added: PanelId, reopened: PanelId,
                      desired: seq<string>)
    requires Agrees(w) && p in w.panels && Watches(w.panels[p], t) && t in desired
    requires anchor in w.panels && anchor != p && added != reopened && added !in w.panels && reopened !in w.panels
    ensures var v := Reopen(AddMonitor(Remove(w, p), anchor, added, t, o, d), reopened);
            Agrees(v) && !WantedOnce(v.panels, desired) && !Reconciled(v.panels, desired)
  {
    hide Agrees, AllIds, SplitPaneWithPanel, Layout.RemovePanel, AddPanelToPane, FocusAfterRemoval;
    var closed := Remove(w, p);
    RemoveAgrees(w, p);
    AddAgrees(closed, anchor, added, t, o, d);
    var both := AddMonitor(closed, anchor, added, t, o, d);
    ReopenAgrees(both, reopened);
    var v := Reopen(both, reopened);
    assert closed.closedPanels != [] && closed.closedPanels[|closed.closedPanels| - 1] == w.panels[p];
    assert v.panels[added] == Panel(added, AgentMonitor, Some(t));
    assert v.panels[reopened] == w.panels[p].(id := reopened);
    assert IsMonitor(v.panels[added]) && IsMonitor(v.panels[reopened]);
  }
}
