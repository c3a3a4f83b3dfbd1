// The tab manager: the workspace list, its selection, its groups and its focus history.
module Tabs {
  import opened Common
  import opened Layout
  import opened Workspaces
  import opened TabLists

  datatype Placement = End | AfterCurrent | Top

  const CLOSED_STACK_CAP := 10

  /** Every workspace agrees with itself, and no two share a panel. */
  ghost predicate Housed(ws: seq<Entry>) {
    && (forall i :: 0 <= i < |ws| ==> Agrees(ws[i].state))
    && (forall i, j :: 0 <= i < j < |ws| ==> ws[i].state.panels.Keys !! ws[j].state.panels.Keys)
  }

  ghost predicate Nowhere(ws: seq<Entry>, p: PanelId) {
    forall i :: 0 <= i < |ws| ==> p !in ws[i].state.panels
  }

  ghost predicate InWorkspace(ws: seq<Entry>, id: WorkspaceId, p: PanelId) {
    exists i :: 0 <= i < |ws| && ws[i].id == id && p in ws[i].state.panels
  }

  /** Some workspace holds exactly this panel. */
  ghost predicate Holds(ws: seq<Entry>, p: Panel) {
    exists i :: 0 <= i < |ws| && p.id in ws[i].state.panels && ws[i].state.panels[p.id] == p
  }

  lemma Taken(start: seq<Entry>, i: nat, p: PanelId, s: State, after: seq<Entry>)
    requires Housed(start) && i < |start| && p in start[i].state.panels
    requires Agrees(s) && s.panels == start[i].state.panels - {p}
    requires after == start[i := start[i].(state := s)]
    ensures Housed(after) && Nowhere(after, p) && Ids(after) == Ids(start) && (DistinctEntries(start) ==> DistinctEntries(after))
    ensures forall q: Panel :: Holds(after, q) <==> Holds(start, q) && q.id != p
  {
    hide Agrees;
    SameIds(start, after);
    forall q: Panel
      ensures Holds(after, q) <==> Holds(start, q) && q.id != p
    {
      if Holds(after, q) {
        var j :| 0 <= j < |after| && q.id in after[j].state.panels && after[j].state.panels[q.id] == q;
        assert q.id in start[j].state.panels && start[j].state.panels[q.id] == q;
      }
      if Holds(start, q) && q.id != p {
        var j :| 0 <= j < |start| && q.id in start[j].state.panels && start[j].state.panels[q.id] == q;
        assert q.id in after[j].state.panels && after[j].state.panels[q.id] == q;
      }
    }
  }

  /** A panel held nowhere is put into one workspace. */
  lemma Put(start: seq<Entry>, i: nat, p: Panel, s: State, after: seq<Entry>)
    requires Housed(start) && i < |start| && Nowhere(start, p.id)
    requires Agrees(s) && s.panels == start[i].state.panels[p.id := p]
    requires after == start[i := start[i].(state := s)]
    ensures Housed(after) && Ids(after) == Ids(start) && (DistinctEntries(start) ==> DistinctEntries(after))
    ensures forall q: Panel :: Holds(after, q) <==> Holds(start, q) || q == p
  {
    hide Agrees;
    SameIds(start, after);
    forall q: Panel
      ensures Holds(after, q) <==> Holds(start, q) || q == p
    {
      if Holds(after, q) {
        var j :| 0 <= j < |after| && q.id in after[j].state.panels && after[j].state.panels[q.id] == q;
        assert q == p || (q.id in start[j].state.panels && start[j].state.panels[q.id] == q);
      }
      if Holds(start, q) {
        var j :| 0 <= j < |start| && q.id in start[j].state.panels && start[j].state.panels[q.id] == q;
        assert q.id in after[j].state.panels && after[j].state.panels[q.id] == q;
      }
      assert after[i].state.panels[p.id] == p;
    }
  }

  /** A panel id lives in one workspace, with one panel. */
  lemma SoleHolder(ws: seq<Entry>, i: nat, p: Panel)
    requires Housed(ws) && i < |ws| && p.id in ws[i].state.panels && ws[i].state.panels[p.id] == p
    ensures Holds(ws, p) && forall q: Panel :: Holds(ws, q) && q.id == p.id ==> q == p
    ensures forall j :: 0 <= j < |ws| && j != i ==> p.id !in ws[j].state.panels
  {
    hide Agrees;
  }

  lemma NowhereHeld(ws: seq<Entry>, p: PanelId)
    requires Nowhere(ws, p)
    ensures forall q: Panel :: Holds(ws, q) ==> q.id != p
  {
  }

  lemma KeyedById(w: State, p: PanelId)
    requires Agrees(w) && p in w.panels
    ensures w.panels[p].id == p
  {
  }

  lemma SameIds(a: seq<Entry>, b: seq<Entry>)
    requires |a| == |b| && forall i :: 0 <= i < |a| ==> a[i].id == b[i].id
    ensures Ids(a) == Ids(b)
  {
    forall id
      ensures id in Ids(a) <==> id in Ids(b)
    {
      if id in Ids(a) {
        var e :| e in a && e.id == id;
        var i :| 0 <= i < |a| && a[i] == e;
        assert b[i] in b;
      }
      if id in Ids(b) {
        var e :| e in b && e.id == id;
        var i :| 0 <= i < |b| && b[i] == e;
        assert a[i] in a;
      }
    }
  }

  /** A workspace without panels can go without any panel going with it. */
  lemma EmptyGone(ws: seq<Entry>, i: nat)
    requires Housed(ws) && i < |ws| && ws[i].state.panels == map[]
    ensures var v := TabLists.Without(ws, i);
            Housed(v) && (forall q: Panel :: Holds(v, q) <==> Holds(ws, q)) && (forall p :: Nowhere(ws, p) ==> Nowhere(v, p))
  {
    hide Agrees;
    var v := TabLists.Without(ws, i);
    assert forall j :: 0 <= j < |v| ==> v[j] == ws[if j < i then j else j + 1];
    forall q: Panel
      ensures Holds(v, q) <==> Holds(ws, q)
    {
      if Holds(ws, q) {
        var j :| 0 <= j < |ws| && q.id in ws[j].state.panels && ws[j].state.panels[q.id] == q;
        assert v[if j < i then j else j - 1] == ws[j];
      }
    }
  }

  // ---------- lists of workspaces that share no panel ----------

  /** A workspace in agreement, none of whose panels is in the list. */
  ghost predicate NewHouse(all: seq<Entry>, e: Entry) {
    Agrees(e.state) && forall i :: 0 <= i < |all| ==> all[i].state.panels.Keys !! e.state.panels.Keys
  }

  lemma {:induction false} TwoPlaces(s: seq<Entry>, x: Entry) returns (p: nat, q: nat)
    requires multiset(s)[x] >= 2
    ensures p < q < |s| && s[p] == s[q] == x
  {
    var init, last := s[..|s| - 1], s[|s| - 1];
    SplitLast(s);
    assert multiset(s) == multiset(init) + multiset{last};
    if last == x {
      assert x in multiset(init);
      p :| 0 <= p < |init| && init[p] == x;
      q := |s| - 1;
    } else {
      p, q := TwoPlaces(init, x);
    }
  }

  lemma Twice(s: seq<Entry>, i: nat, j: nat)
    requires i < j < |s| && s[i] == s[j]
    ensures multiset(s)[s[i]] >= 2
  {
    assert s == s[..j] + [s[j]] + s[j + 1..];
    assert s[..j][i] == s[i];
  }

  /** Rearranging workspaces, or leaving some out, lets none share a panel. */
  lemma HousedWithin(a: seq<Entry>, b: seq<Entry>)
    requires Housed(a) && multiset(b) <= multiset(a)
    ensures Housed(b)
  {
    hide Agrees;
    forall i | 0 <= i < |b|
      ensures Agrees(b[i].state)
    {
      assert b[i] in multiset(b) && b[i] in a;
    }
    forall i, j | 0 <= i < j < |b|
      ensures b[i].state.panels.Keys !! b[j].state.panels.Keys
    {
      assert b[i] in multiset(b) && b[j] in multiset(b);
      if b[i] == b[j] {
        Twice(b, i, j);
        var p, q := TwoPlaces(a, b[i]);
      } else {
        var p :| 0 <= p < |a| && a[p] == b[i];
        var q :| 0 <= q < |a| && a[q] == b[j];
        assert p < q || q < p;
      }
    }
  }

  lemma HousedAppended(a: seq<Entry>, e: Entry)
    requires Housed(a) && NewHouse(a, e)
    ensures Housed(a + [e])
  {
    hide Agrees;
  }

  /** What becomes of the live workspaces and the closed ones together. */
  lemma HousedLess(ws: seq<Entry>, closed: seq<Entry>, less: seq<Entry>)
    requires Housed(ws + closed) && multiset(less) <= multiset(ws)
    ensures Housed(less + closed)
  {
    HousedWithin(ws + closed, less + closed);
  }

  lemma HousedInserted(ws: seq<Entry>, closed: seq<Entry>, at: nat, e: Entry)
    requires Housed(ws + closed) && NewHouse(ws + closed, e) && at <= |ws|
    ensures Housed(InsertAt(ws, at, e) + closed)
  {
    HousedAppended(ws + closed, e);
    assert ws == ws[..at] + ws[at..];
    HousedWithin(ws + closed + [e], InsertAt(ws, at, e) + closed);
  }

  lemma HousedRemoved(ws: seq<Entry>, closed: seq<Entry>, i: nat)
    requires Housed(ws + closed) && i < |ws|
    ensures Housed(TabLists.Without(ws, i) + Remembered(closed, ws[i]))
  {
    assert ws == ws[..i] + [ws[i]] + ws[i + 1..];
    RememberedWithin(closed, ws[i]);
    hide Housed, Remembered;
    HousedWithin(ws + closed, TabLists.Without(ws, i) + Remembered(closed, ws[i]));
  }

  lemma RememberedWithin(stack: seq<Entry>, ws: Entry)
    ensures multiset(Remembered(stack, ws)) <= multiset(stack) + multiset{ws}
  {
    var longer := stack + [ws];
    var drop := if |longer| > CLOSED_STACK_CAP then |longer| - CLOSED_STACK_CAP else 0;
    assert longer == longer[..drop] + longer[drop..];
    assert multiset(longer) == multiset(longer[..drop]) + multiset(longer[drop..]);
  }

  /** The last closed workspace is new to the others. */
  lemma HousedReopened(ws: seq<Entry>, closed: seq<Entry>)
    requires Housed(ws + closed) && closed != []
    ensures var n := |closed| - 1;
            Housed(ws + closed[..n]) && NewHouse(ws + closed[..n], closed[n])
  {
    hide Agrees;
    var all, n := ws + closed, |closed| - 1;
    assert ws + closed[..n] == all[..|all| - 1] && closed[n] == all[|all| - 1];
  }

  lemma HousedRegrouped(ws: seq<Entry>, closed: seq<Entry>, idx: nat, g: Option<GroupId>)
    requires Housed(ws + closed) && idx < |ws|
    ensures Housed(ws[idx := ws[idx].(group := g)] + closed)
  {
    hide Agrees;
    var a, b := ws + closed, ws[idx := ws[idx].(group := g)] + closed;
    assert forall i :: 0 <= i < |b| ==> b[i].state == a[i].state;
  }

  lemma HousedParts(ws: seq<Entry>, closed: seq<Entry>)
    requires Housed(ws + closed)
    ensures Housed(ws)
  {
    HousedWithin(ws + closed, ws);
  }

  // ---------- panels across workspaces ----------

  /** The first workspace that has the panel. */
  function HolderOf(ws: seq<Entry>, p: PanelId): (r: Option<nat>)
    ensures r.Some? ==> r.value < |ws| && p in ws[r.value].state.panels
    ensures r.None? ==> Nowhere(ws, p)
  {
    if ws == [] then None
    else if p in ws[0].state.panels then Some(0)
    else
      var rest := HolderOf(ws[1..], p);
      assert forall i :: 0 < i < |ws| ==> ws[i] == ws[1..][i - 1];
      if rest.None? then None else Some(rest.value + 1)
  }

  function WithState(ws: seq<Entry>, i: nat, s: State): seq<Entry>
    requires i < |ws|
  {
    ws[i := ws[i].(state := s)]
  }

  /** The list without the workspace at `i` if that has no panels left. */
  function Settled(ws: seq<Entry>, i: nat): seq<Entry>
    requires i < |ws|
  {
    if ws[i].state.panels == map[] then TabLists.Without(ws, i) else ws
  }

  function PanelClosed(ws: seq<Entry>, p: PanelId): seq<Entry> {
    var i := HolderOf(ws, p);
    if i.None? then ws else Settled(WithState(ws, i.value, Workspaces.Remove(ws[i.value].state, p)), i.value)
  }

  predicate CanMove(ws: seq<Entry>, p: PanelId, target: WorkspaceId) {
    var i := HolderOf(ws, p);
    i.Some? && ws[i.value].id != target && PositionOf(ws, target).Some?
  }

  function PanelMoved(ws: seq<Entry>, p: PanelId, target: WorkspaceId): seq<Entry> {
    if !CanMove(ws, p, target) then ws
    else
      var i := HolderOf(ws, p).value;
      var rest := Settled(WithState(ws, i, Detach(ws[i].state, p)), i);
      var to := PositionOf(rest, target);
      if to.None? then rest
      else WithState(rest, to.value, Insert(rest[to.value].state, ws[i].state.panels[p], Horizontal))
  }

  lemma SettledKeeps(ws: seq<Entry>, closed: seq<Entry>, i: nat)
    requires Housed(ws + closed) && DistinctEntries(ws) && i < |ws|
    ensures var v := Settled(ws, i);
            && Housed(v + closed) && DistinctEntries(v) && (forall q: Panel :: Holds(v, q) <==> Holds(ws, q))
            && Ids(ws) - {ws[i].id} <= Ids(v) <= Ids(ws)
    ensures forall p :: Nowhere(ws + closed, p) ==> Nowhere(Settled(ws, i) + closed, p)
  {
    if ws[i].state.panels == map[] {
      HousedParts(ws, closed);
      EmptyGone(ws, i);
      EmptyGone(ws + closed, i);
      WithoutDistinct(ws, i);
      assert TabLists.Without(ws + closed, i) == TabLists.Without(ws, i) + closed;
    }
  }

  lemma TakenBeside(ws: seq<Entry>, closed: seq<Entry>, i: nat, p: PanelId, s: State)
    requires Housed(ws + closed) && DistinctEntries(ws) && i < |ws| && p in ws[i].state.panels
    requires Agrees(s) && s.panels == ws[i].state.panels - {p}
    ensures var v := WithState(ws, i, s);
            && Housed(v + closed) && DistinctEntries(v) && Nowhere(v + closed, p) && Ids(v) == Ids(ws)
            && forall q: Panel :: Holds(v, q) <==> Holds(ws, q) && q.id != p
  {
    hide Agrees, Holds, DistinctEntries, Ids;
    HousedParts(ws, closed);
    Taken(ws, i, p, s, WithState(ws, i, s));
    Taken(ws + closed, i, p, s, WithState(ws, i, s) + closed);
  }

  lemma PutBeside(ws: seq<Entry>, closed: seq<Entry>, i: nat, p: Panel, s: State)
    requires Housed(ws + closed) && DistinctEntries(ws) && i < |ws| && Nowhere(ws + closed, p.id)
    requires Agrees(s) && s.panels == ws[i].state.panels[p.id := p]
    ensures var v := WithState(ws, i, s);
            && Housed(v + closed) && DistinctEntries(v) && Ids(v) == Ids(ws)
            && forall q: Panel :: Holds(v, q) <==> Holds(ws, q) || q == p
  {
    hide Agrees, Holds, DistinctEntries, Ids;
    HousedParts(ws, closed);
    assert forall j :: 0 <= j < |ws| ==> ws[j] == (ws + closed)[j];
    Put(ws, i, p, s, WithState(ws, i, s));
    Put(ws + closed, i, p, s, WithState(ws, i, s) + closed);
  }

  /** Closing a panel takes that panel and no other. */
  lemma CloseTakesOnlyIt(ws: seq<Entry>, closed: seq<Entry>, p: PanelId)
    requires Housed(ws + closed) && DistinctEntries(ws)
    ensures var v := PanelClosed(ws, p);
            && Housed(v + closed) && DistinctEntries(v)
            && forall q: Panel :: Holds(v, q) <==> Holds(ws, q) && q.id != p
  {
    hide Agrees, Housed, DistinctEntries, Holds, Ids, Settled, FocusAfterRemoval, Layout.RemovePanel, Capped;
    var i := HolderOf(ws, p);
    if i.None? {
      NowhereHeld(ws, p);
    } else {
      var s := Workspaces.Remove(ws[i.value].state, p);
      HousedAt(ws, closed, i.value);
      RemoveAgrees(ws[i.value].state, p);
      TakenBeside(ws, closed, i.value, p, s);
      SettledKeeps(WithState(ws, i.value, s), closed, i.value);
    }
  }

  lemma HousedAt(ws: seq<Entry>, closed: seq<Entry>, i: nat)
    requires Housed(ws + closed) && i < |ws|
    ensures Agrees(ws[i].state)
  {
    assert (ws + closed)[i] == ws[i];
  }

  /** The list with the panel taken out of its workspace, which goes if it was its last. */
  lemma PanelOut(ws: seq<Entry>, closed: seq<Entry>, i: nat, p: PanelId)
    requires Housed(ws + closed) && DistinctEntries(ws) && i < |ws| && p in ws[i].state.panels
    ensures var v := Settled(WithState(ws, i, Detach(ws[i].state, p)), i);
            && Housed(v + closed) && DistinctEntries(v) && Nowhere(v + closed, p) && Ids(ws) - {ws[i].id} <= Ids(v)
            && forall q: Panel :: Holds(v, q) <==> Holds(ws, q) && q.id != p
  {
    hide Agrees, Housed, DistinctEntries, Holds, Ids, Settled, Layout.RemovePanel, AllIds;
    var s := Detach(ws[i].state, p);
    HousedAt(ws, closed, i);
    DetachAgrees(ws[i].state, p);
    TakenBeside(ws, closed, i, p, s);
    SettledKeeps(WithState(ws, i, s), closed, i);
  }

  /** When a panel can move. */
  lemma CanMoveMeans(ws: seq<Entry>, p: PanelId, target: WorkspaceId)
    requires Housed(ws)
    ensures CanMove(ws, p, target) <==> target in Ids(ws) && !Nowhere(ws, p) && !InWorkspace(ws, target, p)
  {
    hide Ids;
    FoundById(ws, target);
    var at := HolderOf(ws, p);
    if at.Some? {
      KeyedById(ws[at.value].state, p);
      hide Agrees;
      SoleHolder(ws, at.value, ws[at.value].state.panels[p]);
    }
  }

  /** Moving a panel to another workspace puts it there and conserves all panels; it happens exactly
      when the panel is somewhere else than the target and the target exists. */
  lemma MoveConserves(ws: seq<Entry>, closed: seq<Entry>, p: PanelId, target: WorkspaceId)
    requires Housed(ws + closed) && DistinctEntries(ws)
    ensures var v := PanelMoved(ws, p, target);
            && Housed(v + closed) && DistinctEntries(v)
            && (forall q: Panel :: Holds(v, q) <==> Holds(ws, q))
            && (CanMove(ws, p, target) ==> InWorkspace(v, target, p))
    ensures CanMove(ws, p, target) <==> target in Ids(ws) && !Nowhere(ws, p) && !InWorkspace(ws, target, p)
  {
    HousedParts(ws, closed);
    CanMoveMeans(ws, p, target);
    if CanMove(ws, p, target) {
      hide Agrees, Housed, DistinctEntries, Holds, Ids, Settled, SplitAtFocus, Nowhere, Detach;
      var i := HolderOf(ws, p).value;
      var panel := ws[i].state.panels[p];
      HousedAt(ws, closed, i);
      KeyedById(ws[i].state, p);
      SoleHolder(ws, i, panel);
      PanelOut(ws, closed, i, p);
      var rest := Settled(WithState(ws, i, Detach(ws[i].state, p)), i);
      FoundById(ws, target);
      FoundById(rest, target);
      var to := PositionOf(rest, target).value;
      NotAt(rest, closed, to, p);
      HousedAt(rest, closed, to);
      var s := Insert(rest[to].state, panel, Horizontal);
      InsertAgrees(rest[to].state, panel, Horizontal);
      PutBeside(rest, closed, to, panel, s);
      assert PanelMoved(ws, p, target)[to].id == target;
    }
  }

  lemma NotAt(ws: seq<Entry>, closed: seq<Entry>, i: nat, p: PanelId)
    requires Nowhere(ws + closed, p) && i < |ws|
    ensures p !in ws[i].state.panels
  {
    assert (ws + closed)[i] == ws[i];
  }

  /** The only workspace with a panel is the first one. */
  lemma SoleIsFirst(ws: seq<Entry>, i: nat, p: PanelId)
    requires Housed(ws) && i < |ws| && p in ws[i].state.panels
    ensures ws[i].state.panels[p].id == p && HolderOf(ws, p) == Some(i)
  {
    KeyedById(ws[i].state, p);
    hide Agrees;
    SoleHolder(ws, i, ws[i].state.panels[p]);
  }

  /** Closing a panel in the list: with its workspace's last panel the workspace goes; otherwise the
      workspace stays in its place without the panel, and every other workspace is as it was. */
  lemma CloseOnList(ws: seq<Entry>, p: PanelId, i: nat)
    requires Housed(ws) && i < |ws| && p in ws[i].state.panels
    ensures var s := Workspaces.Remove(ws[i].state, p);
            && s.panels == ws[i].state.panels - {p}
            && PanelClosed(ws, p) == if ws[i].state.panels.Keys == {p} then ws[..i] + ws[i + 1..]
                                     else ws[..i] + [ws[i].(state := s)] + ws[i + 1..]
  {
    SoleIsFirst(ws, i, p);
    LastPanel(ws[i].state.panels, p);
    var s := Workspaces.Remove(ws[i].state, p);
    assert s.panels == ws[i].state.panels - {p};
    hide Housed, HolderOf, Workspaces.Remove;
    assert WithState(ws, i, s) == ws[..i] + [ws[i].(state := s)] + ws[i + 1..];
  }

  lemma CloseNowhere(ws: seq<Entry>, p: PanelId)
    requires Nowhere(ws, p)
    ensures PanelClosed(ws, p) == ws
  {
  }

  lemma LastPanel(panels: map<PanelId, Panel>, p: PanelId)
    requires p in panels
    ensures panels - {p} == map[] <==> panels.Keys == {p}
  {
    assert panels - {p} == map[] <==> (panels - {p}).Keys == {};
    if panels.Keys == {p} {
      assert (panels - {p}).Keys == {};
    }
    if panels - {p} == map[] {
      forall q | q in panels
        ensures q == p
      {
        assert q != p ==> q in panels - {p};
      }
    }
  }

  /** Moving a panel in the list: the target, in its place, has the panel too and focuses it; the source
      goes with its last panel, and otherwise stays in its place without it; every other workspace is as
      it was. */
  lemma MoveOnList(ws: seq<Entry>, p: PanelId, i: nat, t: nat)
    requires Housed(ws) && DistinctEntries(ws) && i < |ws| && t < |ws| && i != t && p in ws[i].state.panels
    ensures var panel := ws[i].state.panels[p];
            var from, into := Detach(ws[i].state, p), Insert(ws[t].state, panel, Horizontal);
            var put := ws[t := ws[t].(state := into)];
            && from.panels == ws[i].state.panels - {p}
            && into.panels == ws[t].state.panels[p := panel] && into.focused == Some(p)
            && PanelMoved(ws, p, ws[t].id) == if ws[i].state.panels.Keys == {p} then put[..i] + put[i + 1..]
                                              else put[i := ws[i].(state := from)]
  {
    SoleIsFirst(ws, i, p);
    LastPanel(ws[i].state.panels, p);
    var panel := ws[i].state.panels[p];
    var from := Detach(ws[i].state, p);
    assert from.panels == ws[i].state.panels - {p};
    hide Housed, HolderOf, Detach, SplitAtFocus, PositionOf;
    FoundAt(ws, t);
    RestatedDistinct(ws, i, from);
    if from.panels == map[] {
      LeavesWithout(ws, i, from, t);
    } else {
      FoundAt(WithState(ws, i, from), t);
    }
    PutAfterSettling(ws, i, from, t, Insert(ws[t].state, panel, Horizontal));
  }

  /** Where the target is once the emptied source is gone. */
  lemma LeavesWithout(ws: seq<Entry>, i: nat, from: State, t: nat)
    requires i < |ws| && t < |ws| && i != t && from.panels == map[] && DistinctEntries(WithState(ws, i, from))
    ensures var k := if t < i then t else t - 1;
            var rest := Settled(WithState(ws, i, from), i);
            k < |rest| && rest[k] == ws[t] && PositionOf(rest, ws[t].id) == Some(k)
  {
    var left, k := WithState(ws, i, from), if t < i then t else t - 1;
    WithoutDistinct(left, i);
    WithoutAt(left, i, k);
    hide DistinctEntries, PositionOf;
    FoundAt(TabLists.Without(left, i), k);
  }

  /** Putting a state in after settling is putting it in before. */
  lemma PutAfterSettling(ws: seq<Entry>, i: nat, from: State, t: nat, into: State)
    requires i < |ws| && t < |ws| && i != t
    ensures var put := ws[t := ws[t].(state := into)];
            var rest := Settled(WithState(ws, i, from), i);
            var k := if from.panels == map[] && t > i then t - 1 else t;
            && k < |rest|
            && WithState(rest, k, into) == if from.panels == map[] then put[..i] + put[i + 1..]
                                           else put[i := ws[i].(state := from)]
  {
    var put, rest := ws[t := ws[t].(state := into)], Settled(WithState(ws, i, from), i);
    if from.panels == map[] {
      var k := if t > i then t - 1 else t;
      assert rest[k] == ws[t];
      var v := WithState(rest, k, into);
      assert v[..i] == put[..i] && v[i..] == put[i + 1..];
    }
  }

  lemma FoundAt(ws: seq<Entry>, k: nat)
    requires DistinctEntries(ws) && k < |ws|
    ensures PositionOf(ws, ws[k].id) == Some(k)
  {
  }

  lemma RestatedDistinct(ws: seq<Entry>, i: nat, s: State)
    requires DistinctEntries(ws) && i < |ws|
    ensures DistinctEntries(WithState(ws, i, s))
  {
  }

  // ---------- one workspace changed ----------

  /** The panel an operation brings in. */
  function NewPanels(w: State, op: Op): set<PanelId> {
    match op
    case DoSplit(_, _, id) => {id}
    case DoInsert(panel, _) => {panel.id}
    case DoReopen(id) => {id}
    case _ => {}
  }

  lemma OperationPanels(w: State, op: Op)
    ensures Apply(w, op).panels.Keys <= w.panels.Keys + NewPanels(w, op)
  {
    hide SplitAtFocus, Layout.RemovePanel, AddPanelToPane, SplitPaneWithPanel, UpdatePane, AllIds, FocusAfterRemoval, SharePane,
      Swapped, ReorderPanelInPane, DragTarget, Capped;
  }

  /** Any operation on one workspace, bringing in only panels that are nowhere yet, keeps the
      workspaces apart. */
  lemma HousedOperated(ws: seq<Entry>, closed: seq<Entry>, i: nat, op: Op)
    requires Housed(ws + closed) && i < |ws| && Allowed(ws[i].state, op)
    requires forall p <- NewPanels(ws[i].state, op) :: Nowhere(ws + closed, p)
    ensures Housed(WithState(ws, i, Apply(ws[i].state, op)) + closed)
  {
    HousedAt(ws, closed, i);
    ApplyAgrees(ws[i].state, op);
    OperationPanels(ws[i].state, op);
    hide Agrees, Apply, Allowed, NewPanels;
    var a, b := ws + closed, WithState(ws, i, Apply(ws[i].state, op)) + closed;
    assert forall j :: 0 <= j < |b| && j != i ==> b[j] == a[j];
    forall j, k | 0 <= j < k < |b|
      ensures b[j].state.panels.Keys !! b[k].state.panels.Keys
    {
      assert a[j].state.panels.Keys !! a[k].state.panels.Keys;
    }
  }

  // ---------- closing several ----------

  /** The entries other than `keep` that are not pinned, left out. */
  function Dropped(ws: seq<Entry>, keep: WorkspaceId): seq<Entry> {
    if ws == [] then []
    else (if ws[0].id != keep && !ws[0].pinned then [] else [ws[0]]) + Dropped(ws[1..], keep)
  }

  lemma DroppedAppend(ws: seq<Entry>, e: Entry, keep: WorkspaceId)
    ensures Dropped([e] + ws, keep) == (if e.id != keep && !e.pinned then [] else [e]) + Dropped(ws, keep)
  {
    assert ([e] + ws)[1..] == ws;
  }

  /** One step of dropping from the back. */
  lemma DropOne(start: seq<Entry>, i: nat, hi: nat, keep: WorkspaceId, now: seq<Entry>)
    requires i < hi <= |start| && now == start[..i + 1] + Dropped(start[i + 1..hi], keep) + start[hi..]
    ensures i < |now| && now[i] == start[i]
    ensures (if now[i].id != keep && !now[i].pinned then TabLists.Without(now, i) else now)
         == start[..i] + Dropped(start[i..hi], keep) + start[hi..]
  {
    var e, less, post := start[i], Dropped(start[i + 1..hi], keep), start[hi..];
    assert start[i..hi] == [e] + start[i + 1..hi];
    DroppedAppend(start[i + 1..hi], e, keep);
    hide Dropped;
    EmptyConcat(less);
    assert start[..i + 1] == start[..i] + [e];
    Assoc(start[..i] + [e], less, post);
    Assoc(start[..i], [e], less + post);
    TakenOut(start[..i], e, less + post);
    Assoc(start[..i], less, post);
    Assoc(start[..i], [e], less);
  }

  /** Closing drops exactly the unpinned ones and keeps ids distinct. */
  lemma {:induction false} DroppedKeeps(ws: seq<Entry>, keep: WorkspaceId)
    ensures |Dropped(ws, keep)| <= |ws| && Ids(Dropped(ws, keep)) <= Ids(ws)
    ensures forall e :: e in Dropped(ws, keep) <==> e in ws && (e.id == keep || e.pinned)
    ensures DistinctEntries(ws) ==> DistinctEntries(Dropped(ws, keep))
  {
    if ws != [] {
      var rest := Dropped(ws[1..], keep);
      DroppedKeeps(ws[1..], keep);
      assert ws == [ws[0]] + ws[1..];
      IdsConcat([ws[0]], ws[1..]);
      IdsConcat([ws[0]], rest);
      DistinctConcat([ws[0]], ws[1..]);
      DistinctConcat([ws[0]], rest);
    }
  }

  lemma KeptListed(ws: seq<Entry>, keep: WorkspaceId)
    ensures keep in Ids(ws) ==> keep in Ids(Dropped(ws, keep))
  {
    DroppedKeeps(ws, keep);
    if keep in Ids(ws) {
      var e :| e in ws && e.id == keep;
      assert e in Dropped(ws, keep);
    }
  }

  lemma {:induction false} DroppedWithin(ws: seq<Entry>, keep: WorkspaceId)
    ensures multiset(Dropped(ws, keep)) <= multiset(ws)
  {
    if ws != [] {
      DroppedWithin(ws[1..], keep);
      assert ws == [ws[0]] + ws[1..];
    }
  }

  predicate Stays(e: Entry, keep: WorkspaceId) {
    e.id == keep || e.pinned
  }

  /** The entries of `out` are those of `ws` that stay, all of them and in order, with their positions. */
  ghost predicate KeptAt(ws: seq<Entry>, keep: WorkspaceId, out: seq<Entry>, at: seq<nat>) {
    && |at| == |out|
    && (forall i :: 0 <= i < |at| ==> at[i] < |ws| && out[i] == ws[at[i]] && Stays(ws[at[i]], keep))
    && (forall i, j :: 0 <= i < j < |at| ==> at[i] < at[j])
    && (forall k :: 0 <= k < |ws| && Stays(ws[k], keep) ==> k in at)
  }

  lemma KeptOneMore(init: seq<Entry>, last: Entry, keep: WorkspaceId, out: seq<Entry>, at: seq<nat>)
    requires KeptAt(init, keep, out, at)
    ensures if Stays(last, keep) then KeptAt(init + [last], keep, out + [last], at + [|init|])
            else KeptAt(init + [last], keep, out, at)
  {
    var ws, more := init + [last], at + [|init|];
    assert more[|at|] == |init|;
    forall k | 0 <= k < |ws| && Stays(ws[k], keep)
      ensures k in more && (k < |init| ==> k in at)
    {
      if k < |init| {
        assert init[k] == ws[k] && k in at;
      }
    }
  }

  lemma {:induction false} DroppedLast(init: seq<Entry>, last: Entry, keep: WorkspaceId)
    ensures Dropped(init + [last], keep) == Dropped(init, keep) + (if Stays(last, keep) then [last] else [])
  {
    if init == [] {
      assert init + [last] == [last];
    } else {
      ConcatTail(init, [last]);
      DroppedLast(init[1..], last, keep);
      Assoc(if Stays(init[0], keep) then [init[0]] else [], Dropped(init[1..], keep), if Stays(last, keep) then [last] else []);
    }
  }

  /** Which entries are left: those pinned and the workspace to keep, all of them, in their order. */
  lemma {:induction false} DroppedAt(ws: seq<Entry>, keep: WorkspaceId) returns (at: seq<nat>)
    ensures KeptAt(ws, keep, Dropped(ws, keep), at)
  {
    if ws == [] {
      at := [];
    } else {
      var init, last := ws[..|ws| - 1], ws[|ws| - 1];
      at := DroppedAt(init, keep);
      SplitLast(ws);
      DroppedLast(init, last, keep);
      hide Dropped, KeptAt;
      EmptyConcat(Dropped(init, keep));
      KeptOneMore(init, last, keep, Dropped(init, keep), at);
      at := if Stays(last, keep) then at + [|init|] else at;
    }
  }

  /** Closing a stretch of the list keeps the ids outside it, and all of them distinct. */
  lemma PartDropped(pre: seq<Entry>, mid: seq<Entry>, post: seq<Entry>, keep: WorkspaceId)
    requires DistinctEntries(pre + mid + post)
    ensures DistinctEntries(pre + Dropped(mid, keep) + post)
    ensures Ids(pre) + Ids(post) <= Ids(pre + Dropped(mid, keep) + post)
    ensures multiset(pre + Dropped(mid, keep) + post) <= multiset(pre + mid + post)
  {
    DroppedKeeps(mid, keep);
    DroppedWithin(mid, keep);
    var less := Dropped(mid, keep);
    IdsConcat(pre, mid);
    IdsConcat(pre, less);
    IdsConcat(pre + less, post);
    DistinctConcat(pre + mid, post);
    DistinctConcat(pre, mid);
    DistinctConcat(pre, less);
    DistinctConcat(pre + less, post);
  }

  lemma BelowDropped(ws: seq<Entry>, closed: seq<Entry>, t: nat, keep: WorkspaceId)
    requires DistinctEntries(ws) && Housed(ws + closed) && 0 < t <= |ws|
    ensures var v := ws[..t] + Dropped(ws[t..], keep);
            DistinctEntries(v) && Housed(v + closed) && 0 < |v| <= |ws|
  {
    DroppedKeeps(ws[t..], keep);
    hide Dropped, DistinctEntries, Housed, Ids;
    var v := ws[..t] + Dropped(ws[t..], keep);
    CutAt(ws, t);
    EmptyConcat(ws);
    EmptyConcat(v);
    PartDropped(ws[..t], ws[t..], [], keep);
    HousedLess(ws, closed, v);
  }

  /** The stack of closed workspaces with one more; one left without panels is not remembered, and the
      oldest go first. */
  function Remembered(stack: seq<Entry>, ws: Entry): seq<Entry> {
    if ws.state.panels == map[] then stack
    else
      var longer := stack + [ws];
      if |longer| > CLOSED_STACK_CAP then longer[|longer| - CLOSED_STACK_CAP..] else longer
  }

  /** A workspace closed without panels is not remembered; any other is the newest of the ten kept. */
  lemma RememberedMeans(stack: seq<Entry>, ws: Entry)
    ensures var v := Remembered(stack, ws);
            if ws.state.panels == map[] then v == stack
            else
              && |v| == (if |stack| + 1 <= 10 then |stack| + 1 else 10) && v[|v| - 1] == ws
              && forall i :: 0 <= i < |v| - 1 ==> v[i] == stack[|stack| + 1 - |v| + i]
  {
  }

  /** The workspace selected in place of the one at `i`: the next one, or else the one before. */
  function SelectedNext(ws: seq<Entry>, i: nat): Option<WorkspaceId>
    requires i < |ws|
  {
    if i + 1 < |ws| then Some(ws[i + 1].id) else if i > 0 then Some(ws[i - 1].id) else None
  }

  class TabManager {
    var workspaces: seq<Entry>
    var selectedIndex: Option<nat>
    var groups: seq<GroupId>
    var focusHistory: seq<WorkspaceId>
    var focusPos: nat
    var closedStack: seq<Entry>

    ghost predicate Valid()
      reads this
    {
      && DistinctEntries(workspaces)
      && (selectedIndex.Some? ==> selectedIndex.value < |workspaces|)
      && HistoryOk(focusHistory, focusPos)
      && |closedStack| <= CLOSED_STACK_CAP
      && Housed(workspaces + closedStack)
    }

    /** The id of the selected workspace. */
    function SelectedId(): Option<WorkspaceId>
      reads this
    {
      if selectedIndex.Some? && selectedIndex.value < |workspaces| then Some(workspaces[selectedIndex.value].id) else None
    }

    /** A list with one workspace, selected. */
    constructor (ws: Entry)
      requires Agrees(ws.state)
      ensures Valid() && workspaces == [ws] && SelectedId() == Some(ws.id)
    {
      workspaces, groups, focusHistory, closedStack := [ws], [], [], [];
      selectedIndex := Some(0);
      focusPos := 0;
    }

    /** An empty list, to restore a session into. */
    constructor Empty()
      ensures Valid() && workspaces == [] && SelectedId() == None
    {
      workspaces, groups, focusHistory, closedStack := [], [], [], [];
      selectedIndex := None;
      focusPos := 0;
    }

    // ---------- selecting ----------

    method SelectById(id: WorkspaceId) returns (ok: bool)
      requires Valid()
      modifies this`selectedIndex
      ensures Valid() && ok == (id in Ids(workspaces))
      ensures SelectedId() == if ok then Some(id) else old(SelectedId())
    {
      var at := PositionOf(workspaces, id);
      ok := at.Some?;
      if ok {
        assert workspaces[at.value] in workspaces;
        selectedIndex := at;
      }
    }

    // ---------- adding and removing ----------

    /** Add a workspace and select it. */
    method AddWorkspaceWithPlacement(e: Entry, placement: Placement)
      requires Valid() && e.id !in Ids(workspaces) && NewHouse(workspaces + closedStack, e)
      modifies this`workspaces, this`selectedIndex
      ensures Valid() && SelectedId() == Some(e.id)
      ensures workspaces == match placement
                            case End => old(workspaces) + [e]
                            case Top => [e] + old(workspaces)
                            case AfterCurrent =>
                              var n := if old(selectedIndex).Some? then old(selectedIndex).value + 1 else 0;
                              old(workspaces)[..n] + [e] + old(workspaces)[n..]
    {
      var at := match placement
        case End => |workspaces|
        case AfterCurrent => if selectedIndex.Some? then selectedIndex.value + 1 else 0
        case Top => 0;
      InsertedDistinct(workspaces, at, e);
      HousedInserted(workspaces, closedStack, at, e);
      hide Housed, NewHouse, DistinctEntries, Ids, HistoryOk;
      workspaces := InsertAt(workspaces, at, e);
      selectedIndex := Some(at);
    }

    /** Add a workspace without moving the user: the selection follows the workspace, not the slot. */
    method AddWorkspaceKeepSelection(e: Entry, placement: Placement)
      requires Valid() && e.id !in Ids(workspaces) && NewHouse(workspaces + closedStack, e)
      modifies this`workspaces, this`selectedIndex
      ensures Valid() && SelectedId() == old(SelectedId())
      ensures workspaces == match placement
                            case End => old(workspaces) + [e]
                            case Top => [e] + old(workspaces)
                            case AfterCurrent =>
                              var n := if old(selectedIndex).Some? then old(selectedIndex).value + 1 else |old(workspaces)|;
                              old(workspaces)[..n] + [e] + old(workspaces)[n..]
    {
      var at := match placement
        case End => |workspaces|
        case Top => 0
        case AfterCurrent => if selectedIndex.Some? then selectedIndex.value + 1 else |workspaces|;
      InsertedDistinct(workspaces, at, e);
      HousedInserted(workspaces, closedStack, at, e);
      hide Housed, NewHouse, DistinctEntries, Ids, HistoryOk;
      workspaces := InsertAt(workspaces, at, e);
      if selectedIndex.Some? && at <= selectedIndex.value {
        selectedIndex := Some(selectedIndex.value + 1);
      }
    }

    /** Keep a closed workspace for reopening, unless it is empty. */
    method RememberClosed(ws: Entry)
      requires |closedStack| <= CLOSED_STACK_CAP
      modifies this`closedStack
      ensures closedStack == Remembered(old(closedStack), ws) && |closedStack| <= CLOSED_STACK_CAP
    {
      if ws.state.panels != map[] {
        var longer := closedStack + [ws];
        closedStack := if |longer| > CLOSED_STACK_CAP then longer[|longer| - CLOSED_STACK_CAP..] else longer;
      }
    }

    /** Remove a workspace. Any other one stays selected; in place of the selected one its successor
        is, or the last when there is none. */
    method Remove(index: nat) returns (removed: Option<Entry>)
      requires Valid()
      modifies this`workspaces, this`selectedIndex, this`closedStack
      ensures Valid()
      ensures removed.Some? <==> index < |old(workspaces)|
      ensures removed.None? ==> workspaces == old(workspaces) && SelectedId() == old(SelectedId())
      ensures removed.Some? ==> removed.value == old(workspaces)[index] && workspaces == Without(old(workspaces), index)
      ensures removed.Some? && old(selectedIndex) != Some(index) ==> SelectedId() == old(SelectedId())
      ensures removed.Some? && old(selectedIndex) == Some(index) ==> SelectedId() == SelectedNext(old(workspaces), index)
      ensures closedStack == if removed.Some? then Remembered(old(closedStack), removed.value) else old(closedStack)
    {
      hide DistinctEntries, Ids, HistoryOk, Housed;
      if index >= |workspaces| {
        return None;
      }
      ghost var before := workspaces;
      var ws := workspaces[index];
      WithoutDistinct(workspaces, index);
      HousedRemoved(workspaces, closedStack, index);
      workspaces := Without(workspaces, index);
      assert |workspaces| == |before| - 1;
      hide Without;
      RememberClosed(ws);
      hide Remembered;
      if workspaces == [] {
        selectedIndex := None;
      } else if selectedIndex.Some? {
        var sel := selectedIndex.value;
        if sel >= |workspaces| {
          selectedIndex := Some(|workspaces| - 1);
        } else if sel > index {
          selectedIndex := Some(sel - 1);
        }
        WithoutAt(before, index, selectedIndex.value);
      }
      removed := Some(ws);
    }

    /** Put the most recently closed workspace back, unless it is still there. */
    method ReopenLastClosed() returns (reopened: Option<WorkspaceId>)
      requires Valid()
      modifies this`workspaces, this`selectedIndex, this`closedStack
      ensures Valid()
      ensures old(closedStack) == [] ==> reopened.None? && closedStack == [] && workspaces == old(workspaces)
      ensures old(closedStack) != [] ==>
                var n := |old(closedStack)| - 1; var ws := old(closedStack)[n];
                && reopened == Some(ws.id) && closedStack == old(closedStack)[..n]
                && workspaces == (if ws.id in Ids(old(workspaces)) then old(workspaces) else old(workspaces) + [ws])
                && SelectedId() == (if ws.id in Ids(old(workspaces)) then old(SelectedId()) else Some(ws.id))
      ensures old(closedStack) == [] ==> SelectedId() == old(SelectedId())
    {
      hide DistinctEntries, HistoryOk, Housed, NewHouse;
      if closedStack == [] {
        return None;
      }
      HousedReopened(workspaces, closedStack);
      var ws := closedStack[|closedStack| - 1];
      closedStack := closedStack[..|closedStack| - 1];
      var at := PositionOf(workspaces, ws.id);
      if at.Some? {
        assert workspaces[at.value] in workspaces;
        return Some(ws.id);
      }
      AddWorkspaceWithPlacement(ws, End);
      reopened := Some(ws.id);
    }

    // ---------- reordering ----------

    /** Move a workspace to another position; the same workspace stays selected. */
    method MoveWorkspace(from: nat, to: nat) returns (ok: bool)
      requires Valid()
      modifies this`workspaces, this`selectedIndex
      ensures Valid() && SelectedId() == old(SelectedId())
      ensures ok <==> from < |old(workspaces)| && to < |old(workspaces)|
      ensures workspaces == if from < |old(workspaces)| && to < |old(workspaces)| then Moved(old(workspaces), from, to) else old(workspaces)
    {
      if from >= |workspaces| || to >= |workspaces| || from == to {
        if from == to && from < |workspaces| {
          assert Moved(workspaces, from, to) == workspaces;
        }
        return from == to && from < |workspaces|;
      }
      MovedDistinct(workspaces, from, to);
      MovedMultiset(workspaces, from, to);
      HousedLess(workspaces, closedStack, Moved(workspaces, from, to));
      hide Housed, DistinctEntries, HistoryOk;
      var previous := selectedIndex;
      if previous.Some? {
        MovedAt(workspaces, from, to, previous.value);
      }
      workspaces := InsertAt(Without(workspaces, from), to, workspaces[from]);
      if previous.Some? {
        var selected := previous.value;
        selectedIndex :=
          if selected == from then Some(to)
          else if from < to && selected > from && selected <= to then Some(selected - 1)
          else if from > to && selected >= to && selected < from then Some(selected + 1)
          else Some(selected);
      }
      ok := true;
    }

    /** Assign a workspace to a group (or none), next to the group's last other member. */
    method AssignToGroup(id: WorkspaceId, group: Option<GroupId>) returns (ok: bool)
      requires Valid()
      modifies this`workspaces, this`selectedIndex
      ensures Valid() && SelectedId() == old(SelectedId())
      ensures ok <==> (group.Some? ==> group.value in groups) && id in Ids(old(workspaces))
      ensures !ok ==> workspaces == old(workspaces)
      ensures ok ==> exists i :: 0 <= i < |old(workspaces)| && old(workspaces)[i].id == id && workspaces == Assigned(old(workspaces), i, group)
    {
      if group.Some? && group.value !in groups {
        return false;
      }
      var at := PositionOf(workspaces, id);
      if at.None? {
        return false;
      }
      var idx := at.value;
      SelectedIsListed(workspaces, idx);
      RegroupedDistinct(workspaces, idx, group);
      HousedRegrouped(workspaces, closedStack, idx, group);
      hide Housed, DistinctEntries, Ids, Moved, HistoryOk, LastMember, PositionOf;
      workspaces := workspaces[idx := workspaces[idx].(group := group)];
      if group.Some? {
        var last := LastMember(workspaces, idx, group);
        if last.Some? {
          var to := if last.value > idx then last.value else last.value + 1;
          var moved := MoveWorkspace(idx, to);
        }
      }
      ok := true;
    }

    /** Take the members of a group out of the list, in their order. */
    method ExtractGroup(group: GroupId) returns (members: seq<Entry>)
      modifies this`workspaces
      ensures members == InGroup(old(workspaces), group) && workspaces == OutOfGroup(old(workspaces), group)
    {
      ghost var start := workspaces;
      members := [];
      var i := 0;
      ghost var k := 0;
      assert start[..0] == [] && InGroup([], group) == [] && OutOfGroup([], group) == [];
      hide InGroup, OutOfGroup, Without;
      while i < |workspaces|
        invariant k <= |start| && i == |OutOfGroup(start[..k], group)|
        invariant workspaces == OutOfGroup(start[..k], group) + start[k..]
        invariant members == InGroup(start[..k], group)
        decreases |workspaces| - i
      {
        NextByGroup(start, k, group, workspaces, i);
        if workspaces[i].group == Some(group) {
          members := members + [workspaces[i]];
          workspaces := Without(workspaces, i);
        } else {
          i := i + 1;
        }
        k := k + 1;
      }
      assert k == |start| && start[..k] == start && start[k..] == [];
      EmptyConcat(OutOfGroup(start, group));
    }

    /** Put a block of workspaces in, one after the other. */
    method InsertBlock(at: nat, members: seq<Entry>)
      requires at <= |workspaces|
      modifies this`workspaces
      ensures workspaces == old(workspaces)[..at] + members + old(workspaces)[at..]
    {
      ghost var outside := workspaces;
      var offset := 0;
      while offset < |members|
        invariant offset <= |members|
        invariant workspaces == outside[..at] + members[..offset] + outside[at..]
      {
        workspaces := InsertAt(workspaces, at + offset, members[offset]);
        offset := offset + 1;
        assert members[..offset] == members[..offset - 1] + [members[offset - 1]];
      }
      assert members[..offset] == members;
    }

    /** Move a group's workspaces, in their order, to right before a target workspace or the end. */
    method MoveGroupBefore(group: GroupId, target: Option<WorkspaceId>) returns (ok: bool)
      requires Valid()
      modifies this`workspaces, this`selectedIndex
      ensures Valid() && SelectedId() == old(SelectedId())
      ensures ok <==> group in groups && InGroup(old(workspaces), group) != []
      ensures workspaces == if ok then GroupMoved(old(workspaces), group, target) else old(workspaces)
    {
      hide InGroup, OutOfGroup, DistinctEntries, HistoryOk, OneBlock, Ids, PositionOf, Housed;
      if group !in groups {
        return false;
      }
      ghost var start := workspaces;
      var selectedId := SelectedId();
      var members := ExtractGroup(group);
      if members == [] {
        NoneInGroup(start, group);
        return false;
      }
      var at := if target.Some? then PositionOf(workspaces, target.value) else None;
      InsertBlock(if at.Some? then at.value else |workspaces|, members);
      GroupMovedIsBlock(start, group, target);
      RearrangedDistinct(start, workspaces);
      HousedLess(start, closedStack, workspaces);
      if selectedId.Some? {
        SelectedIsListed(start, old(selectedIndex).value);
        FoundById(workspaces, selectedId.value);
        selectedIndex := PositionOf(workspaces, selectedId.value);
      }
      ok := true;
    }

    // ---------- closing several ----------

    /** Drop the unpinned workspaces other than `keep` from position `lo` up to `hi`, last first. */
    method DropUnpinned(lo: nat, hi: nat, keep: WorkspaceId)
      requires lo <= hi <= |workspaces|
      modifies this`workspaces
      ensures workspaces == old(workspaces)[..lo] + Dropped(old(workspaces)[lo..hi], keep) + old(workspaces)[hi..]
    {
      ghost var start := workspaces;
      var i := hi;
      assert start[hi..hi] == [] && Dropped([], keep) == [];
      assert start == start[..hi] + [] + start[hi..];
      hide Dropped, Without;
      while i > lo
        invariant lo <= i <= hi
        invariant workspaces == start[..i] + Dropped(start[i..hi], keep) + start[hi..]
      {
        i := i - 1;
        DropOne(start, i, hi, keep, workspaces);
        if workspaces[i].id != keep && !workspaces[i].pinned {
          workspaces := Without(workspaces, i);
        }
      }
    }

    /** Drop the unpinned workspaces other than `keep` from a position on. */
    method DropAllFrom(t: nat, keep: WorkspaceId)
      requires t <= |workspaces|
      modifies this`workspaces
      ensures workspaces == old(workspaces)[..t] + Dropped(old(workspaces)[t..], keep)
    {
      ghost var start := workspaces;
      assert start[t..|start|] == start[t..] && start[|start|..] == [];
      DropUnpinned(t, |workspaces|, keep);
      EmptyConcat(start[..t] + Dropped(start[t..], keep));
    }

    /** Close all unpinned workspaces but one, which becomes selected if it exists. */
    method CloseOthers(keep: WorkspaceId) returns (count: nat)
      requires Valid()
      modifies this`workspaces, this`selectedIndex
      ensures Valid() && workspaces == Dropped(old(workspaces), keep) && count == |old(workspaces)| - |workspaces|
      ensures keep in Ids(old(workspaces)) ==> SelectedId() == Some(keep)
      ensures keep !in Ids(old(workspaces)) ==> SelectedId() == if workspaces == [] then None else Some(workspaces[0].id)
    {
      var before := |workspaces|;
      DroppedKeeps(workspaces, keep);
      DroppedWithin(workspaces, keep);
      HousedLess(workspaces, closedStack, Dropped(workspaces, keep));
      KeptListed(workspaces, keep);
      hide Housed, HistoryOk, DistinctEntries, Ids, Dropped, PositionOf;
      ghost var start := workspaces;
      assert start[0..|start|] == start && start[..0] == [] && start[|start|..] == [];
      DropUnpinned(0, |workspaces|, keep);
      EmptyConcat(Dropped(start, keep));
      FoundById(workspaces, keep);
      var at := PositionOf(workspaces, keep);
      selectedIndex := if at.Some? then at else if workspaces == [] then None else Some(0);
      count := before - |workspaces|;
    }

    /** Close all unpinned workspaces above the given one, which becomes selected. */
    method CloseAbove(id: WorkspaceId) returns (count: nat)
      requires Valid()
      modifies this`workspaces, this`selectedIndex
      ensures Valid() && count == |old(workspaces)| - |workspaces|
      ensures id in Ids(old(workspaces)) ==> SelectedId() == Some(id)
      ensures match PositionOf(old(workspaces), id)
              case None => workspaces == old(workspaces) && selectedIndex == old(selectedIndex)
              case Some(i) => workspaces == Dropped(old(workspaces)[..i], id) + old(workspaces)[i..]
    {
      hide DistinctEntries, Ids, Dropped, PositionOf, HistoryOk, Housed;
      FoundById(workspaces, id);
      var at := PositionOf(workspaces, id);
      if at.None? {
        return 0;
      }
      ghost var start, t := workspaces, at.value;
      var before := |workspaces|;
      assert start == [] + start[..t] + start[t..] && start[0..t] == start[..t];
      PartDropped([], start[..t], start[t..], id);
      DroppedKeeps(start[..t], id);
      EmptyConcat(Dropped(start[..t], id));
      HousedLess(start, closedStack, Dropped(start[..t], id) + start[t..]);
      DropUnpinned(0, at.value, id);
      assert workspaces == Dropped(start[..t], id) + start[t..];
      SelectedIsListed(start[t..], 0);
      FoundById(workspaces, id);
      count := before - |workspaces|;
      var now := PositionOf(workspaces, id);
      if now.Some? {
        selectedIndex := now;
      }
    }

    /** Close all unpinned workspaces below the given one; the selected index only stays in bounds. */
    method CloseBelow(id: WorkspaceId) returns (count: nat)
      requires Valid()
      modifies this`workspaces, this`selectedIndex
      ensures Valid() && count == |old(workspaces)| - |workspaces|
      ensures match PositionOf(old(workspaces), id)
              case None => workspaces == old(workspaces)
              case Some(i) => workspaces == old(workspaces)[..i + 1] + Dropped(old(workspaces)[i + 1..], id)
      ensures selectedIndex == if old(selectedIndex).Some? && old(selectedIndex).value >= |workspaces| then Some(|workspaces| - 1)
                               else old(selectedIndex)
    {
      hide DistinctEntries, Ids, Dropped, PositionOf, HistoryOk, Housed;
      FoundById(workspaces, id);
      var at := PositionOf(workspaces, id);
      if at.None? {
        return 0;
      }
      var before := |workspaces|;
      BelowDropped(workspaces, closedStack, at.value + 1, id);
      DropAllFrom(at.value + 1, id);
      count := before - |workspaces|;
      if selectedIndex.Some? && selectedIndex.value >= |workspaces| {
        selectedIndex := Some(|workspaces| - 1);
      }
    }

    // ---------- focus history ----------

    /** Make the selected workspace the newest history entry, dropping what lay ahead. */
    method RecordFocusIfChanged()
      requires Valid()
      modifies this`focusHistory, this`focusPos
      ensures Valid()
      ensures (focusHistory, focusPos) == if SelectedId().None? then (old(focusHistory), old(focusPos))
                                          else Recorded(old(focusHistory), old(focusPos), SelectedId().value)
    {
      var selected := SelectedId();
      if selected.None? {
        return;
      }
      var id := selected.value;
      RecordedOk(focusHistory, focusPos, id);
      if focusPos < |focusHistory| && focusHistory[focusPos] == id {
        return;
      }
      if focusPos + 1 <= |focusHistory| {
        focusHistory := focusHistory[..focusPos + 1];
      }
      focusHistory := focusHistory + [id];
      if |focusHistory| > FOCUS_HISTORY_CAP {
        focusHistory := focusHistory[|focusHistory| - FOCUS_HISTORY_CAP..];
      }
      focusPos := |focusHistory| - 1;
    }

    /** Go back to the nearest earlier live workspace and select it. */
    method FocusBack() returns (reached: Option<WorkspaceId>)
      requires Valid()
      modifies this`focusPos, this`selectedIndex
      ensures Valid()
      ensures (focusPos, reached.Some?) == Back(focusHistory, old(focusPos), Ids(workspaces))
      ensures reached.Some? ==> reached.value == focusHistory[focusPos] && SelectedId() == reached
      ensures reached.None? ==> SelectedId() == old(SelectedId())
    {
      while focusPos > 0
        invariant Valid() && SelectedId() == old(SelectedId())
        invariant focusPos <= old(focusPos)
        invariant Back(focusHistory, focusPos, Ids(workspaces)) == Back(focusHistory, old(focusPos), Ids(workspaces))
        decreases focusPos
      {
        focusPos := focusPos - 1;
        var id := focusHistory[focusPos];
        var live := SelectById(id);
        if live {
          return Some(id);
        }
      }
      reached := None;
    }

    /** Go forward to the nearest later live workspace and select it. */
    method FocusForward() returns (reached: Option<WorkspaceId>)
      requires Valid()
      modifies this`focusPos, this`selectedIndex
      ensures Valid()
      ensures (focusPos, reached.Some?) == Ahead(focusHistory, old(focusPos), Ids(workspaces))
      ensures reached.Some? ==> reached.value == focusHistory[focusPos] && SelectedId() == reached
      ensures reached.None? ==> SelectedId() == old(SelectedId())
    {
      while focusPos + 1 < |focusHistory|
        invariant Valid() && SelectedId() == old(SelectedId())
        invariant old(focusPos) <= focusPos
        invariant Ahead(focusHistory, focusPos, Ids(workspaces)) == Ahead(focusHistory, old(focusPos), Ids(workspaces))
        decreases |focusHistory| - focusPos
      {
        focusPos := focusPos + 1;
        var id := focusHistory[focusPos];
        var live := SelectById(id);
        if live {
          return Some(id);
        }
      }
      reached := None;
    }

    // ---------- panels across workspaces ----------

    method FindWorkspaceWithPanel(p: PanelId) returns (found: Option<nat>)
      ensures found == HolderOf(workspaces, p)
    {
      ghost var all := HolderOf(workspaces, p);
      assert workspaces[0..] == workspaces;
      for i := 0 to |workspaces|
        invariant all == (var rest := HolderOf(workspaces[i..], p); if rest.None? then None else Some(rest.value + i))
      {
        assert workspaces[i..][1..] == workspaces[i + 1..];
        if p in workspaces[i].state.panels {
          return Some(i);
        }
      }
      found := None;
    }

    /** Do anything a workspace offers in one of them; panels it brings in are new. */
    method Operate(i: nat, op: Op)
      requires Valid() && i < |workspaces| && Allowed(workspaces[i].state, op)
      requires forall p <- NewPanels(workspaces[i].state, op) :: Nowhere(workspaces + closedStack, p)
      modifies this`workspaces
      ensures Valid() && workspaces == WithState(old(workspaces), i, Apply(old(workspaces)[i].state, op))
      ensures SelectedId() == old(SelectedId())
    {
      HousedOperated(workspaces, closedStack, i, op);
      hide Housed, Agrees, Apply, Allowed, NewPanels, HistoryOk;
      workspaces := workspaces[i := workspaces[i].(state := Apply(workspaces[i].state, op))];
    }

    /** Give a workspace its new state. */
    method SetState(i: nat, state: State)
      requires Valid() && i < |workspaces| && Housed(WithState(workspaces, i, state) + closedStack)
      modifies this`workspaces
      ensures Valid() && workspaces == WithState(old(workspaces), i, state)
      ensures SelectedId() == old(SelectedId())
    {
      hide Housed, HistoryOk;
      workspaces := workspaces[i := workspaces[i].(state := state)];
    }

    /** Remove a workspace that has no panels left. */
    method RemoveIfEmpty(i: nat)
      requires Valid() && i < |workspaces|
      modifies this`workspaces, this`selectedIndex, this`closedStack
      ensures Valid() && workspaces == Settled(old(workspaces), i) && closedStack == old(closedStack)
      ensures SelectedId() == if old(workspaces)[i].state.panels == map[] && old(selectedIndex) == Some(i) then SelectedNext(old(workspaces), i)
                              else old(SelectedId())
    {
      hide Housed, HistoryOk, DistinctEntries;
      if workspaces[i].state.panels == map[] {
        var _ := Remove(i);
      }
    }

    /** Close a tab wherever it lives, and its workspace with its last tab. */
    method ClosePanel(p: PanelId) returns (closed: bool)
      requires Valid()
      modifies this`workspaces, this`selectedIndex, this`closedStack
      ensures Valid()
      ensures workspaces == PanelClosed(old(workspaces), p) && closed == HolderOf(old(workspaces), p).Some?
      ensures forall q: Panel :: Holds(workspaces, q) <==> Holds(old(workspaces), q) && q.id != p
      ensures closedStack == old(closedStack)
      ensures closed && old(selectedIndex) == HolderOf(old(workspaces), p) && old(workspaces)[old(selectedIndex).value].state.panels.Keys == {p} ==>
                SelectedId() == SelectedNext(old(workspaces), old(selectedIndex).value)
      ensures !closed || old(selectedIndex) != HolderOf(old(workspaces), p) || old(workspaces)[old(selectedIndex).value].state.panels.Keys != {p} ==>
                SelectedId() == old(SelectedId())
    {
      CloseTakesOnlyIt(workspaces, closedStack, p);
      hide Agrees, Housed, Workspaces.Remove, HolderOf, Settled, HistoryOk, DistinctEntries, Holds;
      var found := FindWorkspaceWithPanel(p);
      if found.None? {
        return false;
      }
      var i := found.value;
      RemovalHoused(workspaces, closedStack, i, p);
      LastPanel(workspaces[i].state.panels, p);
      var state := Workspaces.Remove(workspaces[i].state, p);
      RemovalTakes(workspaces[i].state, p);
      NextRestated(workspaces, i, state);
      hide SelectedNext;
      SetState(i, state);
      RemoveIfEmpty(i);
      closed := true;
    }

    /** Move a panel into another workspace; a workspace left without panels is removed. */
    method MovePanelToWorkspace(p: PanelId, target: WorkspaceId) returns (moved: Option<WorkspaceId>)
      requires Valid()
      modifies this`workspaces, this`selectedIndex, this`closedStack
      ensures Valid()
      ensures workspaces == PanelMoved(old(workspaces), p, target) && closedStack == old(closedStack)
      ensures forall q: Panel :: Holds(workspaces, q) <==> Holds(old(workspaces), q)
      ensures moved == if CanMove(old(workspaces), p, target) then Some(target) else None
      ensures moved.Some? && old(selectedIndex) == HolderOf(old(workspaces), p) && old(workspaces)[old(selectedIndex).value].state.panels.Keys == {p} ==>
                SelectedId() == SelectedNext(old(workspaces), old(selectedIndex).value)
      ensures moved.None? || old(selectedIndex) != HolderOf(old(workspaces), p) || old(workspaces)[old(selectedIndex).value].state.panels.Keys != {p} ==>
                SelectedId() == old(SelectedId())
    {
      MoveConserves(workspaces, closedStack, p, target);
      hide Agrees, Housed, Detach, Insert, HolderOf, PositionOf, Settled, HistoryOk, Holds, InWorkspace, Ids, DistinctEntries;
      var found := FindWorkspaceWithPanel(p);
      if found.None? {
        return None;
      }
      var source := found.value;
      if workspaces[source].id == target {
        return None;
      }
      var targetAt := PositionOf(workspaces, target);
      if targetAt.None? {
        return None;
      }
      var panel := workspaces[source].state.panels[p];
      DetachingHoused(workspaces, closedStack, source, p);
      LastPanel(workspaces[source].state.panels, p);
      var detached := Detach(workspaces[source].state, p);
      RemovalTakes(workspaces[source].state, p);
      NextRestated(workspaces, source, detached);
      hide SelectedNext;
      SetState(source, detached);
      RemoveIfEmpty(source);
      var to := PositionOf(workspaces, target);
      if to.Some? {
        var into := Insert(workspaces[to.value].state, panel, Horizontal);
        SetState(to.value, into);
        moved := Some(target);
      } else {
        moved := None;
      }
    }
  }

  lemma RemovalTakes(w: State, p: PanelId)
    requires p in w.panels
    ensures Workspaces.Remove(w, p).panels == w.panels - {p} && Detach(w, p).panels == w.panels - {p}
  {
    hide FocusAfterRemoval, Layout.RemovePanel, Capped, AllIds;
  }

  lemma NextRestated(ws: seq<Entry>, i: nat, s: State)
    requires i < |ws|
    ensures SelectedNext(WithState(ws, i, s), i) == SelectedNext(ws, i)
  {
  }

  lemma RemovalHoused(ws: seq<Entry>, closed: seq<Entry>, i: nat, p: PanelId)
    requires Housed(ws + closed) && DistinctEntries(ws) && i < |ws| && p in ws[i].state.panels
    ensures Housed(WithState(ws, i, Workspaces.Remove(ws[i].state, p)) + closed)
  {
    hide Agrees, Housed, DistinctEntries, FocusAfterRemoval, Layout.RemovePanel, Capped;
    HousedAt(ws, closed, i);
    RemoveAgrees(ws[i].state, p);
    TakenBeside(ws, closed, i, p, Workspaces.Remove(ws[i].state, p));
  }

  lemma DetachingHoused(ws: seq<Entry>, closed: seq<Entry>, i: nat, p: PanelId)
    requires Housed(ws + closed) && DistinctEntries(ws) && i < |ws| && p in ws[i].state.panels
    ensures Housed(WithState(ws, i, Detach(ws[i].state, p)) + closed)
  {
    hide Agrees, Housed, DistinctEntries, Layout.RemovePanel, AllIds;
    HousedAt(ws, closed, i);
    DetachAgrees(ws[i].state, p);
    TakenBeside(ws, closed, i, p, Detach(ws[i].state, p));
  }
}
