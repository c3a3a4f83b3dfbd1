// Lists of workspaces: moving entries, keeping groups together, and focus history.
module TabLists {
  import opened Common
  import opened Workspaces

  type WorkspaceId = nat
  type GroupId = nat

  datatype Entry = Entry(id: WorkspaceId, group: Option<GroupId>, pinned: bool, state: State)

  function Without<T>(s: seq<T>, i: nat): seq<T>
    requires i < |s|
  {
    s[..i] + s[i + 1..]
  }

  lemma WithoutAt<T>(s: seq<T>, i: nat, k: nat)
    requires i < |s| && k < |s| - 1
    ensures |Without(s, i)| == |s| - 1
    ensures Without(s, i)[k] == s[if k < i then k else k + 1]
  {
  }

  function InsertAt<T>(s: seq<T>, i: nat, x: T): seq<T>
    requires i <= |s|
  {
    s[..i] + [x] + s[i..]
  }

  /** The entry at `from` taken out and put back at `to`. */
  function Moved<T>(s: seq<T>, from: nat, to: nat): seq<T>
    requires from < |s| && to < |s|
  {
    InsertAt(Without(s, from), to, s[from])
  }

  ghost predicate DistinctEntries(ws: seq<Entry>) {
    forall i, j :: 0 <= i < j < |ws| ==> ws[i].id != ws[j].id
  }

  /** The position of the entry with the given id. */
  function PositionOf(ws: seq<Entry>, id: WorkspaceId): (r: Option<nat>)
    ensures r.Some? ==> r.value < |ws| && ws[r.value].id == id
    ensures r.None? ==> forall i :: 0 <= i < |ws| ==> ws[i].id != id
  {
    if ws == [] then None
    else if ws[0].id == id then Some(0)
    else
      var rest := PositionOf(ws[1..], id);
      assert forall i :: 0 < i < |ws| ==> ws[i] == ws[1..][i - 1];
      if rest.None? then None else Some(rest.value + 1)
  }

  function Ids(ws: seq<Entry>): set<WorkspaceId> {
    set e | e in ws :: e.id
  }

  lemma FoundById(ws: seq<Entry>, id: WorkspaceId)
    ensures PositionOf(ws, id).Some? <==> id in Ids(ws)
  {
    if PositionOf(ws, id).Some? {
      assert ws[PositionOf(ws, id).value] in ws;
    }
  }

  lemma SelectedIsListed(ws: seq<Entry>, i: nat)
    requires i < |ws|
    ensures ws[i].id in Ids(ws)
  {
    assert ws[i] in ws;
  }

  /** Distinctness survives any rearrangement. */
  lemma RearrangedDistinct(a: seq<Entry>, b: seq<Entry>)
    requires multiset(a) == multiset(b) && DistinctEntries(a)
    ensures DistinctEntries(b) && Ids(a) == Ids(b)
  {
    assert forall e :: e in a <==> e in multiset(a);
    assert forall e :: e in b <==> e in multiset(b);
    assert |a| == |multiset(a)| && |b| == |multiset(b)|;
    assert forall e :: e in a <==> e in b;
    assert Ids(a) == Ids(b);
    IdsCardinality(a);
    IdsCardinality(b);
  }

  lemma IdsCardinality(ws: seq<Entry>)
    ensures |Ids(ws)| == |ws| <==> DistinctEntries(ws)
  {
    var ids := seq(|ws|, i requires 0 <= i < |ws| => ws[i].id);
    ElemsCardinality(ids);
    forall id
      ensures id in Ids(ws) <==> id in ids
    {
      if id in Ids(ws) {
        var e :| e in ws && e.id == id;
        var i :| 0 <= i < |ws| && ws[i] == e;
        assert ids[i] == id;
      }
      if id in ids {
        var i :| 0 <= i < |ids| && ids[i] == id;
        assert ws[i] in ws;
      }
    }
    assert Ids(ws) == Elems(ids);
    assert forall i :: 0 <= i < |ws| ==> ids[i] == ws[i].id;
    if Distinct(ids) {
      forall i, j | 0 <= i < j < |ws|
        ensures ws[i].id != ws[j].id
      {
        assert ids[i] != ids[j];
      }
    }
  }

  lemma IdsConcat(a: seq<Entry>, b: seq<Entry>)
    ensures Ids(a + b) == Ids(a) + Ids(b)
  {
    assert forall e :: e in a + b <==> e in a || e in b;
  }

  lemma DistinctConcat(a: seq<Entry>, b: seq<Entry>)
    ensures DistinctEntries(a + b) <==> DistinctEntries(a) && DistinctEntries(b) && Ids(a) !! Ids(b)
  {
    var v := a + b;
    assert forall i :: 0 <= i < |a| ==> v[i] == a[i];
    assert forall i :: 0 <= i < |b| ==> v[|a| + i] == b[i];
    if DistinctEntries(v) {
      forall x <- a, y <- b
        ensures x.id != y.id
      {
        var i :| 0 <= i < |a| && a[i] == x;
        var j :| 0 <= j < |b| && b[j] == y;
        assert v[i].id != v[|a| + j].id;
      }
    } else if DistinctEntries(a) && DistinctEntries(b) {
      var i, j :| 0 <= i < j < |v| && v[i].id == v[j].id;
      assert i < |a| <= j;
      assert a[i].id in Ids(a) && b[j - |a|].id in Ids(b);
    }
  }

  lemma InsertedDistinct(ws: seq<Entry>, at: nat, e: Entry)
    requires DistinctEntries(ws) && at <= |ws| && e.id !in Ids(ws)
    ensures DistinctEntries(InsertAt(ws, at, e)) && Ids(InsertAt(ws, at, e)) == Ids(ws) + {e.id}
  {
    assert ws == ws[..at] + ws[at..];
    assert Ids([e]) == {e.id};
    IdsConcat(ws[..at], ws[at..]);
    IdsConcat(ws[..at], [e]);
    IdsConcat(ws[..at] + [e], ws[at..]);
    DistinctConcat(ws[..at], ws[at..]);
    DistinctConcat(ws[..at], [e]);
    DistinctConcat(ws[..at] + [e], ws[at..]);
  }

  lemma WithoutDistinct(ws: seq<Entry>, i: nat)
    requires DistinctEntries(ws) && i < |ws|
    ensures DistinctEntries(Without(ws, i)) && Ids(Without(ws, i)) == Ids(ws) - {ws[i].id}
  {
    var pre, post := ws[..i], ws[i + 1..];
    assert ws == pre + [ws[i]] + post;
    assert Ids([ws[i]]) == {ws[i].id};
    IdsConcat(pre, [ws[i]]);
    IdsConcat(pre + [ws[i]], post);
    IdsConcat(pre, post);
    DistinctConcat(pre, [ws[i]]);
    DistinctConcat(pre + [ws[i]], post);
    DistinctConcat(pre, post);
  }

  // ---------- where a moved list keeps its entries ----------

  /** Where position `i` goes when the entry at `from` moves to `to`. */
  function MovedIndex(i: nat, from: nat, to: nat): int {
    if i == from then to
    else if from < to && from < i <= to then i - 1
    else if to < from && to <= i < from then i + 1
    else i
  }

  lemma MovedAt<T>(s: seq<T>, from: nat, to: nat, i: nat)
    requires from < |s| && to < |s| && i < |s|
    ensures |Moved(s, from, to)| == |s| && 0 <= MovedIndex(i, from, to) < |s|
    ensures Moved(s, from, to)[MovedIndex(i, from, to)] == s[i]
  {
  }

  /** The entry ends up at `to`, and the others keep their order. */
  lemma MovedMeans<T>(s: seq<T>, from: nat, to: nat)
    requires from < |s| && to < |s|
    ensures var v := Moved(s, from, to);
            |v| == |s| && v[to] == s[from] && v[..to] + v[to + 1..] == s[..from] + s[from + 1..]
  {
    var rest := Without(s, from);
    assert rest == rest[..to] + rest[to..];
    var v := Moved(s, from, to);
    assert v[..to] == rest[..to] && v[to + 1..] == rest[to..];
  }

  lemma MovedDistinct(ws: seq<Entry>, from: nat, to: nat)
    requires DistinctEntries(ws) && from < |ws| && to < |ws|
    ensures DistinctEntries(Moved(ws, from, to))
  {
    var v := Moved(ws, from, to);
    forall i | 0 <= i < |v|
      ensures 0 <= MovedIndex(i, to, from) < |ws| && v[i] == ws[MovedIndex(i, to, from)]
    {
    }
  }

  lemma MovedMultiset<T>(s: seq<T>, from: nat, to: nat)
    requires from < |s| && to < |s|
    ensures multiset(Moved(s, from, to)) == multiset(s)
  {
    var rest := Without(s, from);
    assert s == s[..from] + [s[from]] + s[from + 1..] && rest == rest[..to] + rest[to..];
    assert multiset(s) == multiset(s[..from] + s[from + 1..]) + multiset{s[from]};
    assert multiset(rest[..to] + [s[from]] + rest[to..]) == multiset(rest[..to] + rest[to..]) + multiset{s[from]};
  }

  // ---------- groups ----------

  /** The members of every group are adjacent. */
  ghost predicate Contiguous(ws: seq<Entry>) {
    forall i, j, k :: 0 <= i < j < k < |ws| && ws[i].group.Some? && ws[i].group == ws[k].group ==> ws[j].group == ws[i].group
  }

  /** The entries of one group form one block. */
  ghost predicate OneBlock(ws: seq<Entry>, g: GroupId) {
    forall i, j, k :: 0 <= i < j < k < |ws| && ws[i].group == Some(g) && ws[k].group == Some(g) ==> ws[j].group == Some(g)
  }

  /** Some other entry than the one at `idx` is in the group. */
  predicate OtherMember(ws: seq<Entry>, idx: nat, g: Option<GroupId>) {
    g.Some? && exists i :: 0 <= i < |ws| && i != idx && ws[i].group == g
  }

  /** The entry has members of its own group on both sides. */
  predicate InsideBlock(ws: seq<Entry>, idx: nat) {
    && 0 < idx < |ws| - 1 && ws[idx].group.Some?
    && ws[idx - 1].group == ws[idx].group && ws[idx + 1].group == ws[idx].group
  }

  function LastMember(ws: seq<Entry>, idx: nat, g: Option<GroupId>): (r: Option<nat>)
    ensures r.Some? ==> r.value < |ws| && r.value != idx && ws[r.value].group == g
    ensures r.Some? ==> forall i :: r.value < i < |ws| && i != idx ==> ws[i].group != g
    ensures r.None? ==> forall i :: 0 <= i < |ws| && i != idx ==> ws[i].group != g
  {
    if ws == [] then None
    else if |ws| - 1 != idx && ws[|ws| - 1].group == g then Some(|ws| - 1)
    else LastMember(ws[..|ws| - 1], idx, g)
  }

  /** The entry at `idx` given the group, and moved right after the group's last other member. */
  function Assigned(ws: seq<Entry>, idx: nat, g: Option<GroupId>): seq<Entry>
    requires idx < |ws|
  {
    var set' := ws[idx := ws[idx].(group := g)];
    var last := LastMember(set', idx, g);
    if g.None? || last.None? then set'
    else Moved(set', idx, if last.value > idx then last.value else last.value + 1)
  }

  lemma WithoutContiguous(ws: seq<Entry>, idx: nat)
    requires Contiguous(ws) && idx < |ws|
    ensures Contiguous(Without(ws, idx))
  {
    var rest := Without(ws, idx);
    assert forall i :: 0 <= i < |rest| ==> rest[i] == ws[if i < idx then i else i + 1];
  }

  /** Adding a member right after a group's last one keeps every group together. */
  lemma InsertAfterLastContiguous(rest: seq<Entry>, last: nat, e: Entry)
    requires Contiguous(rest) && last < |rest| && e.group.Some? && rest[last].group == e.group
    requires forall i :: last < i < |rest| ==> rest[i].group != e.group
    ensures Contiguous(InsertAt(rest, last + 1, e))
  {
    var v := InsertAt(rest, last + 1, e);
    assert forall i :: 0 <= i < |v| && i != last + 1 ==> v[i] == rest[if i <= last then i else i - 1];
    forall i, j, k | 0 <= i < j < k < |v| && v[i].group.Some? && v[i].group == v[k].group
      ensures v[j].group == v[i].group
    {
      if k == last + 1 && j < last {
        assert rest[j].group == rest[i].group;
      }
    }
  }

  lemma RegroupedDistinct(ws: seq<Entry>, idx: nat, g: Option<GroupId>)
    requires DistinctEntries(ws) && idx < |ws|
    ensures DistinctEntries(ws[idx := ws[idx].(group := g)])
  {
  }

  /** Which list assigning makes when the group has another member. */
  lemma AssignedShape(ws: seq<Entry>, idx: nat, g: Option<GroupId>) returns (last: nat)
    requires idx < |ws| && OtherMember(ws, idx, g)
    ensures last < |ws| - 1 && Without(ws, idx)[last].group == g
    ensures forall i :: last < i < |ws| - 1 ==> Without(ws, idx)[i].group != g
    ensures Assigned(ws, idx, g) == InsertAt(Without(ws, idx), last + 1, ws[idx].(group := g))
  {
    var set' := ws[idx := ws[idx].(group := g)];
    var member :| 0 <= member < |ws| && member != idx && ws[member].group == g;
    assert set'[member].group == g;
    var at := LastMember(set', idx, g).value;
    assert Without(set', idx) == Without(ws, idx);
    last := if at > idx then at - 1 else at;
    forall i | last < i < |ws| - 1
      ensures Without(ws, idx)[i].group != g
    {
      assert set'[if i < idx then i else i + 1].group != g;
    }
  }

  /** An entry put right after position `last`: what is before it and what follows. */
  lemma InsertedAfter<T>(rest: seq<T>, last: nat, e: T)
    requires last < |rest|
    ensures var v := InsertAt(rest, last + 1, e);
            && |v| == |rest| + 1 && v[last + 1] == e && v[last] == rest[last]
            && v[..last + 1] + v[last + 2..] == rest && forall k :: last + 1 < k < |v| ==> v[k] == rest[k - 1]
  {
    var v := InsertAt(rest, last + 1, e);
    assert v[..last + 1] == rest[..last + 1] && v[last + 2..] == rest[last + 1..];
    assert rest == rest[..last + 1] + rest[last + 1..];
  }

  /** The entry, given its group, goes right after the group's last other member, or stays where it is
      when there is none; the others keep their order. */
  lemma AssignedMeans(ws: seq<Entry>, idx: nat, g: Option<GroupId>) returns (at: nat)
    requires idx < |ws|
    ensures var v := Assigned(ws, idx, g);
            && at < |v| == |ws| && v[at] == ws[idx].(group := g)
            && v[..at] + v[at + 1..] == ws[..idx] + ws[idx + 1..]
            && (if g.Some? && exists i :: 0 <= i < |ws| && i != idx && ws[i].group == g then
                  at > 0 && v[at - 1].group == g && forall k :: at < k < |v| ==> v[k].group != g
                else at == idx)
  {
    var v := Assigned(ws, idx, g);
    if OtherMember(ws, idx, g) {
      var last := AssignedShape(ws, idx, g);
      at := last + 1;
      hide Assigned, LastMember, InsertAt;
      InsertedAfter(Without(ws, idx), last, ws[idx].(group := g));
      forall k | at < k < |v|
        ensures v[k].group != g
      {
        assert v[k] == Without(ws, idx)[k - 1];
      }
    } else {
      at := idx;
      assert v == ws[idx := ws[idx].(group := g)];
      hide *;
    }
  }

  lemma AssignedToMembers(ws: seq<Entry>, idx: nat, g: Option<GroupId>)
    requires Contiguous(ws) && idx < |ws| && OtherMember(ws, idx, g)
    ensures Contiguous(Assigned(ws, idx, g))
  {
    WithoutContiguous(ws, idx);
    hide Contiguous, Assigned;
    var last := AssignedShape(ws, idx, g);
    InsertAfterLastContiguous(Without(ws, idx), last, ws[idx].(group := g));
  }

  lemma AssignedInPlace(ws: seq<Entry>, idx: nat, g: Option<GroupId>)
    requires Contiguous(ws) && idx < |ws| && !OtherMember(ws, idx, g)
    ensures Contiguous(Assigned(ws, idx, g)) <==> !InsideBlock(ws, idx)
  {
    var v := Assigned(ws, idx, g);
    assert v == ws[idx := ws[idx].(group := g)];
    if InsideBlock(ws, idx) {
      assert v[idx - 1].group == v[idx + 1].group && v[idx].group != v[idx - 1].group;
    } else {
      forall i, j, k | 0 <= i < j < k < |v| && v[i].group.Some? && v[i].group == v[k].group
        ensures v[j].group == v[i].group
      {
      }
    }
  }

  /** Assigning a workspace keeps all groups together, the one it leaves included, exactly when the
      group it joins has another member or it did not sit inside its old group's block. */
  lemma AssignContiguousIff(ws: seq<Entry>, idx: nat, g: Option<GroupId>)
    requires Contiguous(ws) && idx < |ws|
    ensures Contiguous(Assigned(ws, idx, g)) <==> OtherMember(ws, idx, g) || !InsideBlock(ws, idx)
  {
    if OtherMember(ws, idx, g) {
      AssignedToMembers(ws, idx, g);
    } else {
      AssignedInPlace(ws, idx, g);
    }
  }

  function InGroup(ws: seq<Entry>, g: GroupId): seq<Entry> {
    if ws == [] then [] else (if ws[0].group == Some(g) then [ws[0]] else []) + InGroup(ws[1..], g)
  }

  function OutOfGroup(ws: seq<Entry>, g: GroupId): seq<Entry> {
    if ws == [] then [] else (if ws[0].group == Some(g) then [] else [ws[0]]) + OutOfGroup(ws[1..], g)
  }

  lemma {:induction false} GroupMembers(ws: seq<Entry>, g: GroupId)
    ensures forall e <- InGroup(ws, g) :: e.group == Some(g) && e in ws
    ensures forall e <- OutOfGroup(ws, g) :: e.group != Some(g) && e in ws
  {
    if ws != [] {
      GroupMembers(ws[1..], g);
      assert ws == [ws[0]] + ws[1..];
    }
  }

  lemma {:induction false} SplitsByGroup(ws: seq<Entry>, g: GroupId)
    ensures multiset(InGroup(ws, g)) + multiset(OutOfGroup(ws, g)) == multiset(ws)
  {
    if ws != [] {
      SplitsByGroup(ws[1..], g);
      assert ws == [ws[0]] + ws[1..];
    }
  }

  lemma {:induction false} InConcat(a: seq<Entry>, b: seq<Entry>, g: GroupId)
    ensures InGroup(a + b, g) == InGroup(a, g) + InGroup(b, g)
  {
    if a == [] {
      EmptyConcat(b);
      EmptyConcat(InGroup(b, g));
    } else {
      ConcatTail(a, b);
      InConcat(a[1..], b, g);
      Assoc(if a[0].group == Some(g) then [a[0]] else [], InGroup(a[1..], g), InGroup(b, g));
    }
  }

  lemma {:induction false} OutConcat(a: seq<Entry>, b: seq<Entry>, g: GroupId)
    ensures OutOfGroup(a + b, g) == OutOfGroup(a, g) + OutOfGroup(b, g)
  {
    if a == [] {
      EmptyConcat(b);
      EmptyConcat(OutOfGroup(b, g));
    } else {
      ConcatTail(a, b);
      OutConcat(a[1..], b, g);
      Assoc(if a[0].group == Some(g) then [] else [a[0]], OutOfGroup(a[1..], g), OutOfGroup(b, g));
    }
  }

  lemma {:induction false} AllIn(ws: seq<Entry>, g: GroupId)
    requires forall e <- ws :: e.group == Some(g)
    ensures InGroup(ws, g) == ws && OutOfGroup(ws, g) == []
  {
    if ws != [] {
      AllIn(ws[1..], g);
    }
  }

  lemma {:induction false} AllOut(ws: seq<Entry>, g: GroupId)
    requires forall e <- ws :: e.group != Some(g)
    ensures InGroup(ws, g) == [] && OutOfGroup(ws, g) == ws
  {
    if ws != [] {
      AllOut(ws[1..], g);
    }
  }

  /** One step of taking a group's members out of the list from the front. */
  lemma NextByGroup(start: seq<Entry>, k: nat, g: GroupId, ws: seq<Entry>, i: nat)
    requires k <= |start| && ws == OutOfGroup(start[..k], g) + start[k..]
    requires i == |OutOfGroup(start[..k], g)| && i < |ws|
    ensures k < |start| && ws[i] == start[k]
    ensures start[k].group == Some(g) ==>
              && InGroup(start[..k + 1], g) == InGroup(start[..k], g) + [start[k]]
              && OutOfGroup(start[..k + 1], g) == OutOfGroup(start[..k], g)
              && Without(ws, i) == OutOfGroup(start[..k + 1], g) + start[k + 1..]
    ensures start[k].group != Some(g) ==>
              && InGroup(start[..k + 1], g) == InGroup(start[..k], g)
              && |OutOfGroup(start[..k + 1], g)| == i + 1
              && ws == OutOfGroup(start[..k + 1], g) + start[k + 1..]
  {
    var x, out, post := start[k], OutOfGroup(start[..k], g), start[k + 1..];
    ByGroupOne(start, k, g);
    hide InGroup, OutOfGroup;
    EmptyConcat(InGroup(start[..k], g));
    EmptyConcat(out);
    HeadOff(out, start, k);
    assert start[k..] == [x] + post;
    TakenOut(out, x, post);
  }

  /** One entry more, split by group. */
  lemma ByGroupOne(start: seq<Entry>, k: nat, g: GroupId)
    requires k < |start|
    ensures InGroup(start[..k + 1], g) == InGroup(start[..k], g) + (if start[k].group == Some(g) then [start[k]] else [])
    ensures OutOfGroup(start[..k + 1], g) == OutOfGroup(start[..k], g) + (if start[k].group == Some(g) then [] else [start[k]])
  {
    var x := start[k];
    assert start[..k + 1] == start[..k] + [x];
    assert InGroup([x], g) == if x.group == Some(g) then [x] else [];
    assert OutOfGroup([x], g) == if x.group == Some(g) then [] else [x];
    hide InGroup, OutOfGroup;
    InConcat(start[..k], [x], g);
    OutConcat(start[..k], [x], g);
  }

  lemma TakenOut<T>(pre: seq<T>, x: T, post: seq<T>)
    ensures var s := pre + ([x] + post);
            s[|pre|] == x && Without(s, |pre|) == pre + post && s == pre + [x] + post
  {
  }

  lemma {:induction false} NoneInGroup(ws: seq<Entry>, g: GroupId)
    requires InGroup(ws, g) == []
    ensures OutOfGroup(ws, g) == ws
  {
    if ws != [] {
      NoneInGroup(ws[1..], g);
    }
  }

  /** The group's members as a block before the target workspace, or at the end. */
  function GroupMoved(ws: seq<Entry>, g: GroupId, target: Option<WorkspaceId>): seq<Entry> {
    var outside := OutOfGroup(ws, g);
    var at := if target.Some? then PositionOf(outside, target.value) else None;
    var k := if at.Some? then at.value else |outside|;
    outside[..k] + InGroup(ws, g) + outside[k..]
  }

  /** A block put between entries outside its group. */
  lemma BlockBetween(pre: seq<Entry>, block: seq<Entry>, post: seq<Entry>, g: GroupId)
    requires forall e <- pre :: e.group != Some(g)
    requires forall e <- post :: e.group != Some(g)
    requires forall e <- block :: e.group == Some(g)
    ensures var v := pre + block + post;
            OneBlock(v, g) && InGroup(v, g) == block && OutOfGroup(v, g) == pre + post
  {
    BlockIsOne(pre, block, post, g);
    AllOut(pre, g);
    AllOut(post, g);
    AllIn(block, g);
    hide InGroup, OutOfGroup, OneBlock;
    InConcat(pre + block, post, g);
    InConcat(pre, block, g);
    EmptyConcat(block);
    OutConcat(pre + block, post, g);
    OutConcat(pre, block, g);
    EmptyConcat(pre);
  }

  lemma BlockIsOne(pre: seq<Entry>, block: seq<Entry>, post: seq<Entry>, g: GroupId)
    requires forall e <- pre :: e.group != Some(g)
    requires forall e <- post :: e.group != Some(g)
    requires forall e <- block :: e.group == Some(g)
    ensures OneBlock(pre + block + post, g)
  {
    var v := pre + block + post;
    forall i | 0 <= i < |v|
      ensures v[i].group == Some(g) <==> |pre| <= i < |pre| + |block|
    {
      if i < |pre| {
        assert v[i] == pre[i];
      } else if i < |pre| + |block| {
        assert v[i] == block[i - |pre|];
      } else {
        assert v[i] == post[i - |pre| - |block|];
      }
    }
  }

  /** Moving a group makes it one block and keeps the order inside the group and outside it. */
  lemma GroupMovedIsBlock(ws: seq<Entry>, g: GroupId, target: Option<WorkspaceId>)
    ensures var v := GroupMoved(ws, g, target);
            OneBlock(v, g) && InGroup(v, g) == InGroup(ws, g) && OutOfGroup(v, g) == OutOfGroup(ws, g)
    ensures multiset(GroupMoved(ws, g, target)) == multiset(ws)
  {
    SplitsByGroup(ws, g);
    GroupMembers(ws, g);
    var outside, inside := OutOfGroup(ws, g), InGroup(ws, g);
    var at := if target.Some? then PositionOf(outside, target.value) else None;
    var k := if at.Some? then at.value else |outside|;
    hide InGroup, OutOfGroup, OneBlock, PositionOf;
    CutAt(outside, k);
    BlockBetween(outside[..k], inside, outside[k..], g);
  }

  lemma CutAt<T>(s: seq<T>, k: nat)
    requires k <= |s|
    ensures s == s[..k] + s[k..]
    ensures multiset(s) == multiset(s[..k]) + multiset(s[k..])
    ensures forall x <- s[..k] :: x in s
    ensures forall x <- s[k..] :: x in s
  {
    assert s == s[..k] + s[k..];
  }

  /** A target outside the group ends up right after the block. */
  lemma GroupMovedBeforeTarget(ws: seq<Entry>, g: GroupId, target: Entry)
    requires target in ws && target.group != Some(g) && DistinctEntries(ws)
    ensures var v := GroupMoved(ws, g, Some(target.id)); var outside := OutOfGroup(ws, g);
            exists k :: 0 <= k < |outside| && outside[k] == target
              && v == outside[..k] + InGroup(ws, g) + [target] + outside[k + 1..]
  {
    OutMember(ws, g, target);
    SplitsByGroup(ws, g);
    GroupMembers(ws, g);
    var outside := OutOfGroup(ws, g);
    var j :| 0 <= j < |outside| && outside[j] == target;
    var k := PositionOf(outside, target.id).value;
    hide InGroup, OutOfGroup;
    assert outside[k] in outside;
    SameEntry(ws, outside[k], target);
    HeadOff(outside[..k] + InGroup(ws, g), outside, k);
  }

  /** Without a target outside the group, the block goes to the end. */
  lemma GroupMovedToEnd(ws: seq<Entry>, g: GroupId, target: Option<WorkspaceId>)
    requires target.Some? ==> forall e <- ws :: e.id == target.value ==> e.group == Some(g)
    ensures GroupMoved(ws, g, target) == OutOfGroup(ws, g) + InGroup(ws, g)
  {
    GroupMembers(ws, g);
    var out := OutOfGroup(ws, g);
    hide InGroup, OutOfGroup;
    assert target.Some? ==> forall i :: 0 <= i < |out| ==> out[i] in out && out[i].id != target.value;
    assert target.Some? ==> PositionOf(out, target.value).None?;
    assert out[..|out|] == out && out[|out|..] == [];
    EmptyConcat(out + InGroup(ws, g));
  }

  lemma HeadOff<T>(a: seq<T>, s: seq<T>, k: nat)
    requires k < |s|
    ensures a + s[k..] == a + [s[k]] + s[k + 1..]
  {
  }

  lemma SameEntry(ws: seq<Entry>, a: Entry, b: Entry)
    requires DistinctEntries(ws) && a in ws && b in ws && a.id == b.id
    ensures a == b
  {
  }

  lemma {:induction false} OutMember(ws: seq<Entry>, g: GroupId, e: Entry)
    requires e in ws && e.group != Some(g)
    ensures e in OutOfGroup(ws, g)
  {
    if ws[0] != e {
      OutMember(ws[1..], g, e);
    }
  }

  // ---------- a moved group among the others ----------

  /** The target comes after another member of its own group, which is not the one moved. */
  predicate MidGroup(ws: seq<Entry>, g: GroupId, target: Option<WorkspaceId>) {
    target.Some? && exists i, j :: 0 <= i < j < |ws| && Parted(ws[i], ws[j], g) && ws[j].id == target.value
  }

  /** Two members of one group other than `g`. */
  predicate Parted(a: Entry, b: Entry, g: GroupId) {
    a.group.Some? && a.group != Some(g) && a.group == b.group
  }

  /** Where the entries outside a group come from: their positions, in order and all of them. */
  ghost predicate OutPositions(ws: seq<Entry>, g: GroupId, out: seq<Entry>, at: seq<nat>) {
    && |at| == |out|
    && (forall i :: 0 <= i < |at| ==> at[i] < |ws| && ws[at[i]] == out[i] && out[i].group != Some(g))
    && (forall i, j :: 0 <= i < j < |at| ==> at[i] < at[j])
    && (forall p :: 0 <= p < |ws| && ws[p].group != Some(g) ==> p in at)
  }

  lemma MemberSkipped(init: seq<Entry>, last: Entry, g: GroupId, out: seq<Entry>, at: seq<nat>)
    requires OutPositions(init, g, out, at) && last.group == Some(g)
    ensures OutPositions(init + [last], g, out, at)
  {
  }

  lemma OtherAppended(init: seq<Entry>, last: Entry, g: GroupId, out: seq<Entry>, at: seq<nat>)
    requires OutPositions(init, g, out, at) && last.group != Some(g)
    ensures OutPositions(init + [last], g, out + [last], at + [|init|])
  {
    var ws, more := init + [last], at + [|init|];
    forall p | 0 <= p < |ws| && ws[p].group != Some(g)
      ensures p in more
    {
      if p < |init| {
        assert init[p] == ws[p] && p in at;
      } else {
        assert more[|at|] == p;
      }
    }
  }

  lemma {:induction false} OutAt(ws: seq<Entry>, g: GroupId) returns (at: seq<nat>)
    ensures OutPositions(ws, g, OutOfGroup(ws, g), at)
  {
    if ws == [] {
      at := [];
    } else {
      var init, last := ws[..|ws| - 1], ws[|ws| - 1];
      at := OutAt(init, g);
      SplitLast(ws);
      OutConcat(init, [last], g);
      assert OutOfGroup([last], g) == if last.group == Some(g) then [] else [last];
      hide OutOfGroup, OutPositions;
      if last.group == Some(g) {
        EmptyConcat(OutOfGroup(init, g));
        MemberSkipped(init, last, g, OutOfGroup(init, g), at);
      } else {
        OtherAppended(init, last, g, OutOfGroup(init, g), at);
        at := at + [|init|];
      }
    }
  }

  lemma OutContiguous(ws: seq<Entry>, g: GroupId, out: seq<Entry>, at: seq<nat>)
    requires Contiguous(ws) && OutPositions(ws, g, out, at)
    ensures Contiguous(out)
  {
    forall i, j, k | 0 <= i < j < k < |out| && out[i].group.Some? && out[i].group == out[k].group
      ensures out[j].group == out[i].group
    {
      assert at[i] < at[j] < at[k] && ws[at[j]].group == ws[at[i]].group;
    }
  }

  /** A block put into a list keeps the other groups together exactly when it parts none of them. */
  lemma BlockParts(out: seq<Entry>, k: nat, block: seq<Entry>, g: GroupId)
    requires Contiguous(out) && k <= |out| && block != []
    requires forall e <- out :: e.group != Some(g)
    requires forall e <- block :: e.group == Some(g)
    ensures Contiguous(out[..k] + block + out[k..]) <==> !(0 < k < |out| && Parted(out[k - 1], out[k], g))
  {
    var v, n := out[..k] + block + out[k..], |block|;
    forall i | 0 <= i < |v|
      ensures v[i] == (if i < k then out[i] else if i < k + n then block[i - k] else out[i - n])
      ensures v[i].group == Some(g) <==> k <= i < k + n
    {
      if i < k || i >= k + n {
        assert v[i] in out;
      } else {
        assert v[i] in block;
      }
    }
    if 0 < k < |out| && Parted(out[k - 1], out[k], g) {
      assert v[k - 1].group == v[k + n].group && v[k].group != v[k - 1].group;
    } else {
      BlockFits(out, k, n, g, v);
    }
  }

  lemma BlockFits(out: seq<Entry>, k: nat, n: nat, g: GroupId, v: seq<Entry>)
    requires Contiguous(out) && k <= |out| && |v| == |out| + n
    requires forall i :: 0 <= i < |v| ==> (v[i].group == Some(g) <==> k <= i < k + n)
    requires forall i :: 0 <= i < k ==> v[i] == out[i]
    requires forall i :: k + n <= i < |v| ==> v[i] == out[i - n]
    requires !(0 < k < |out| && Parted(out[k - 1], out[k], g))
    ensures Contiguous(v)
  {
    forall i, j, m | 0 <= i < j < m < |v| && v[i].group.Some? && v[i].group == v[m].group
      ensures v[j].group == v[i].group
    {
      if v[i].group != Some(g) {
        var a, c := if i < k then i else i - n, if m < k then m else m - n;
        assert out[a] == v[i] && out[c] == v[m];
        if a >= k || c < k {
          var b := if j < k then j else j - n;
          assert out[b] == v[j];
        }
      }
    }
  }

  lemma AtOrder(ws: seq<Entry>, g: GroupId, out: seq<Entry>, at: seq<nat>, x: nat, y: nat)
    requires OutPositions(ws, g, out, at) && x < |out| && y < |out|
    ensures |at| == |out| && at[x] < |ws| && ws[at[x]] == out[x] && (at[x] < at[y] <==> x < y)
  {
  }

  lemma AtOf(ws: seq<Entry>, g: GroupId, out: seq<Entry>, at: seq<nat>, p: nat) returns (x: nat)
    requires OutPositions(ws, g, out, at) && p < |ws| && ws[p].group != Some(g)
    ensures x < |out| && |at| == |out| && at[x] == p && out[x] == ws[p]
  {
    assert p in at;
    x :| 0 <= x < |at| && at[x] == p;
  }

  lemma MidIsParted(ws: seq<Entry>, g: GroupId, id: WorkspaceId, out: seq<Entry>, at: seq<nat>, i: nat, j: nat)
    requires DistinctEntries(ws) && OutPositions(ws, g, out, at) && Contiguous(out)
    requires i < j < |ws| && Parted(ws[i], ws[j], g) && ws[j].id == id
    ensures var pos := PositionOf(out, id);
            pos.Some? && 0 < pos.value && Parted(out[pos.value - 1], out[pos.value], g)
  {
    hide OutPositions, DistinctEntries, PositionOf;
    var a := AtOf(ws, g, out, at, i);
    var c := AtOf(ws, g, out, at, j);
    var k := PositionOf(out, id).value;
    AtOrder(ws, g, out, at, a, c);
    AtOrder(ws, g, out, at, k, c);
    AtOrder(ws, g, out, at, c, k);
    SameEntryAt(ws, at[k], j);
    if a < k - 1 {
      assert out[k - 1].group == out[a].group;
    }
  }

  lemma SameEntryAt(ws: seq<Entry>, i: nat, j: nat)
    requires DistinctEntries(ws) && i < |ws| && j < |ws| && ws[i].id == ws[j].id
    ensures i == j
  {
  }

  /** The entry before the target in the list without the group is of the target's group exactly when
      the target sits after another member of its group. */
  lemma TargetMidGroup(ws: seq<Entry>, g: GroupId, target: Option<WorkspaceId>, out: seq<Entry>, at: seq<nat>)
    requires DistinctEntries(ws) && OutPositions(ws, g, out, at) && Contiguous(out)
    ensures var pos := if target.Some? then PositionOf(out, target.value) else None;
            MidGroup(ws, g, target) <==> pos.Some? && 0 < pos.value && Parted(out[pos.value - 1], out[pos.value], g)
  {
    hide DistinctEntries, Contiguous, Parted;
    if MidGroup(ws, g, target) {
      var i, j :| 0 <= i < j < |ws| && Parted(ws[i], ws[j], g) && ws[j].id == target.value;
      MidIsParted(ws, g, target.value, out, at, i, j);
    }
    var pos := if target.Some? then PositionOf(out, target.value) else None;
    if pos.Some? && 0 < pos.value && Parted(out[pos.value - 1], out[pos.value], g) {
      var k := pos.value;
      assert at[k - 1] < at[k] && Parted(ws[at[k - 1]], ws[at[k]], g);
    }
  }

  /** Moving a group keeps every group together exactly when it is not dropped before a workspace that
      comes after another member of its own group. */
  lemma GroupMovedContiguousIff(ws: seq<Entry>, g: GroupId, target: Option<WorkspaceId>)
    requires Contiguous(ws) && DistinctEntries(ws) && InGroup(ws, g) != []
    ensures Contiguous(GroupMoved(ws, g, target)) <==> !MidGroup(ws, g, target)
  {
    GroupMembers(ws, g);
    var out := OutOfGroup(ws, g);
    var at := OutAt(ws, g);
    var pos := if target.Some? then PositionOf(out, target.value) else None;
    var k := if pos.Some? then pos.value else |out|;
    OutContiguous(ws, g, out, at);
    hide Contiguous, OutPositions, MidGroup, InGroup, OutOfGroup, Parted, DistinctEntries, PositionOf;
    TargetMidGroup(ws, g, target, out, at);
    BlockParts(out, k, InGroup(ws, g), g);
  }

  // ---------- focus history ----------

  const FOCUS_HISTORY_CAP := 50

  /** The cursor is in range, the history capped, and no two neighbours equal. */
  ghost predicate HistoryOk(history: seq<WorkspaceId>, pos: nat) {
    && (if history == [] then pos == 0 else pos < |history|)
    && |history| <= FOCUS_HISTORY_CAP
    && NoStutter(history)
  }

  ghost predicate NoStutter(s: seq<WorkspaceId>) {
    forall i :: 0 <= i < |s| - 1 ==> s[i] != s[i + 1]
  }

  lemma StutterPart(s: seq<WorkspaceId>, lo: nat, hi: nat)
    requires lo <= hi <= |s| && NoStutter(s)
    ensures NoStutter(s[lo..hi])
  {
    var part := s[lo..hi];
    forall i | 0 <= i < |part| - 1
      ensures part[i] != part[i + 1]
    {
      assert part[i] == s[lo + i] && part[i + 1] == s[lo + i + 1];
    }
  }

  lemma StutterAppend(s: seq<WorkspaceId>, id: WorkspaceId)
    requires NoStutter(s) && (s != [] ==> s[|s| - 1] != id)
    ensures NoStutter(s + [id])
  {
    var more := s + [id];
    forall i | 0 <= i < |more| - 1
      ensures more[i] != more[i + 1]
    {
      assert more[i] == s[i];
    }
  }

  /** Step back to the nearest earlier entry that is live; without one, to the start. */
  function Back(history: seq<WorkspaceId>, pos: nat, live: set<WorkspaceId>): (nat, bool)
    requires pos <= |history|
  {
    if pos == 0 then (0, false)
    else if history[pos - 1] in live then (pos - 1, true)
    else Back(history, pos - 1, live)
  }

  /** Step forward to the nearest later entry that is live; without one, to the end. */
  function Ahead(history: seq<WorkspaceId>, pos: nat, live: set<WorkspaceId>): (r: (nat, bool))
    ensures r.0 <= pos || r.0 < |history|
    decreases |history| - pos
  {
    if pos + 1 >= |history| then (pos, false)
    else if history[pos + 1] in live then (pos + 1, true)
    else Ahead(history, pos + 1, live)
  }

  lemma {:induction false} BackSkipsDead(history: seq<WorkspaceId>, pos: nat, live: set<WorkspaceId>)
    requires pos <= |history|
    ensures var (p, found) := Back(history, pos, live);
            && p <= pos && (found ==> p < pos && history[p] in live)
            && (forall i :: (if found then p + 1 else 0) <= i < pos ==> history[i] !in live)
            && (!found ==> p == 0)
  {
    if pos > 0 && history[pos - 1] !in live {
      BackSkipsDead(history, pos - 1, live);
    }
  }

  lemma {:induction false} AheadSkipsDead(history: seq<WorkspaceId>, pos: nat, live: set<WorkspaceId>)
    requires pos < |history|
    ensures var (p, found) := Ahead(history, pos, live);
            && pos <= p < |history| && (found ==> pos < p && history[p] in live)
            && (forall i :: pos < i < (if found then p else |history|) ==> history[i] !in live)
            && (!found ==> p == |history| - 1)
    decreases |history| - pos
  {
    if pos + 1 < |history| && history[pos + 1] !in live {
      AheadSkipsDead(history, pos + 1, live);
    }
  }

  /** Back and then forward from a live entry returns to it, over whatever dead entries lie between,
      exactly when there was any entry to go back over: at the start of the history back stays put. */
  lemma BackThenAhead(history: seq<WorkspaceId>, pos: nat, live: set<WorkspaceId>)
    requires pos < |history| && history[pos] in live
    ensures Ahead(history, Back(history, pos, live).0, live) == (pos, true) <==> pos > 0
  {
    var p := Back(history, pos, live).0;
    BackSkipsDead(history, pos, live);
    AheadSkipsDead(history, p, live);
  }

  /** Forward and then back likewise, exactly when there was an entry to go forward over. */
  lemma AheadThenBack(history: seq<WorkspaceId>, pos: nat, live: set<WorkspaceId>)
    requires pos < |history| && history[pos] in live
    ensures Back(history, Ahead(history, pos, live).0, live) == (pos, true) <==> pos + 1 < |history|
  {
    var p := Ahead(history, pos, live).0;
    AheadSkipsDead(history, pos, live);
    BackSkipsDead(history, p, live);
  }

  /** What recording the current workspace makes of the history. */
  function Recorded(history: seq<WorkspaceId>, pos: nat, id: WorkspaceId): (seq<WorkspaceId>, nat) {
    if pos < |history| && history[pos] == id then (history, pos)
    else
      var longer := (if pos + 1 <= |history| then history[..pos + 1] else history) + [id];
      var kept := if |longer| > FOCUS_HISTORY_CAP then longer[|longer| - FOCUS_HISTORY_CAP..] else longer;
      (kept, |kept| - 1)
  }

  /** The history as it is when the workspace is the current entry already; else what led up to the current
      entry and then the workspace, of which the newest fifty are kept. */
  lemma RecordedMeans(history: seq<WorkspaceId>, pos: nat, id: WorkspaceId)
    requires HistoryOk(history, pos)
    ensures var (v, p) := Recorded(history, pos, id); var n := if history == [] then 0 else pos + 1;
            if pos < |history| && history[pos] == id then v == history && p == pos
            else
              && |v| == (if n + 1 <= 50 then n + 1 else 50) && p == |v| - 1 && v[p] == id
              && forall i :: 0 <= i < p ==> v[i] == history[n - p + i]
  {
  }

  /** Recording keeps the history well-formed and leaves the workspace as its current entry. */
  lemma RecordedOk(history: seq<WorkspaceId>, pos: nat, id: WorkspaceId)
    requires HistoryOk(history, pos)
    ensures var (h, p) := Recorded(history, pos, id);
            HistoryOk(h, p) && h != [] && h[p] == id
  {
    if !(pos < |history| && history[pos] == id) {
      var cut := if pos + 1 <= |history| then history[..pos + 1] else history;
      var longer := cut + [id];
      var drop := if |longer| > FOCUS_HISTORY_CAP then |longer| - FOCUS_HISTORY_CAP else 0;
      StutterPart(history, 0, |cut|);
      assert cut == history[0..|cut|];
      StutterAppend(cut, id);
      StutterPart(longer, drop, |longer|);
      assert Recorded(history, pos, id).0 == longer[drop..|longer|];
    }
  }
}
