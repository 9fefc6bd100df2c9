/** The monitor's rotation check: walk the ring of active cells, rest a window of them, wake shadow
    cells in their groups, repair pointers, rebuild the ring and clear stale pointers. */
module Rotation {
  import opened Ring
  import opened Cells

  // ---- groups and the shadow that can be promoted ----

  /** Row indices of a group's a, s1 and s2 slots; -1 where the slot is missing. */
  datatype Triple = Triple(a: int, s1: int, s2: int)

  predicate InSlot(cells: seq<Cell>, i: int, key: string, pos: nat) {
    0 <= i < |cells| && GroupKey(cells[i].slot) == Some(key) && Position(cells[i].slot) == Some(pos)
  }

  /** The last row of a group at a position, or -1. */
  function SlotAt(cells: seq<Cell>, key: string, pos: nat): (i: int)
    ensures i == -1 || InSlot(cells, i, key, pos)
    ensures forall j :: InSlot(cells, j, key, pos) ==> j <= i
  {
    if cells == [] then -1
    else
      var n := |cells| - 1;
      if InSlot(cells, n, key, pos) then n
      else
        assert forall j :: InSlot(cells, j, key, pos) ==> InSlot(cells[..n], j, key, pos);
        SlotAt(cells[..n], key, pos)
  }

  function GroupOf(cells: seq<Cell>, key: string): Triple {
    Triple(SlotAt(cells, key, 0), SlotAt(cells, key, 1), SlotAt(cells, key, 2))
  }

  /** Records row n at its slot's position in a triple. */
  function Place(t: Triple, slot: string, n: nat): Triple {
    match Position(slot)
    case Some(p) => if p == 1 then t.(s1 := n) else if p == 2 then t.(s2 := n) else t.(a := n)
    case None => t
  }

  lemma GroupSnoc(cells: seq<Cell>, n: nat, key: string)
    requires n < |cells|
    ensures GroupOf(cells[..n + 1], key) ==
      if GroupKey(cells[n].slot) == Some(key) then Place(GroupOf(cells[..n], key), cells[n].slot, n) else GroupOf(cells[..n], key)
  {
    assert cells[..n + 1][..n] == cells[..n];
  }

  /** The groups of the first n rows. */
  ghost predicate Gathered(cells: seq<Cell>, groups: map<string, Triple>, n: nat)
    requires n <= |cells|
  {
    && (forall i :: 0 <= i < n && GroupKey(cells[i].slot).Some? ==> GroupKey(cells[i].slot).value in groups)
    && (forall key :: GroupOf(cells[..n], key) == TripleIn(groups, key))
  }

  function TripleIn(groups: map<string, Triple>, key: string): Triple {
    if key in groups then groups[key] else Triple(-1, -1, -1)
  }

  lemma GatheredSnoc(cells: seq<Cell>, groups: map<string, Triple>, n: nat)
    requires n < |cells| && Gathered(cells, groups, n)
    ensures var key := GroupKey(cells[n].slot);
      Gathered(cells, if key.None? then groups else groups[key.value := Place(TripleIn(groups, key.value), cells[n].slot, n)], n + 1)
  {
    var key := GroupKey(cells[n].slot);
    var after := if key.None? then groups else groups[key.value := Place(TripleIn(groups, key.value), cells[n].slot, n)];
    forall k
      ensures GroupOf(cells[..n + 1], k) == TripleIn(after, k)
    {
      GroupSnoc(cells, n, k);
    }
  }

  method GroupSlots(cells: seq<Cell>) returns (groups: map<string, Triple>)
    ensures forall i :: 0 <= i < |cells| && GroupKey(cells[i].slot).Some? ==> GroupKey(cells[i].slot).value in groups
    ensures forall key :: key in groups ==> groups[key] == GroupOf(cells, key)
  {
    groups := map[];
    for n := 0 to |cells|
      invariant Gathered(cells, groups, n)
    {
      GatheredSnoc(cells, groups, n);
      var key := GroupKey(cells[n].slot);
      if key.None? {
        continue;
      }
      groups := groups[key.value := Place(TripleIn(groups, key.value), cells[n].slot, n)];
    }
    assert cells[..|cells|] == cells;
    assert forall key :: key in groups ==> GroupOf(cells, key) == TripleIn(groups, key);
  }

  predicate HasStatus(cells: seq<Cell>, i: int, status: Status) {
    0 <= i < |cells| && cells[i].status == status
  }

  /** (row to promote to active, row to promote to shadow1); -1 for none. */
  function NextPromotable(cells: seq<Cell>, t: Triple): (r: (int, int))
    ensures r.0 != -1 ==> r.0 in {t.s1, t.s2} && HasStatus(cells, r.0, Shadow1)
    ensures r.1 != -1 ==> r.0 == t.s1 && r.1 == t.s2 && HasStatus(cells, r.1, Shadow2)
    ensures r.0 == -1 <==> !HasStatus(cells, t.s1, Shadow1) && !HasStatus(cells, t.s2, Shadow1)
  {
    if HasStatus(cells, t.s1, Shadow1) then (t.s1, if HasStatus(cells, t.s2, Shadow2) then t.s2 else -1)
    else if (HasStatus(cells, t.s1, Shadow2) || HasStatus(cells, t.s1, Lost)) && HasStatus(cells, t.s2, Shadow1) then (t.s2, -1)
    else if HasStatus(cells, t.s2, Shadow1) then (t.s2, -1)
    else (-1, -1)
  }

  /** What resting row i would wake: the promotable pair of its group. */
  function Wakes(cells: seq<Cell>, i: int): (r: (int, int)) {
    if 0 <= i < |cells| && GroupKey(cells[i].slot).Some?
    then NextPromotable(cells, GroupOf(cells, GroupKey(cells[i].slot).value))
    else (-1, -1)
  }

  /** A shadow1 in the s1 slot is woken before one in the s2 slot; only then does a shadow2 in the s2 slot move up. */
  lemma WakesFirstShadow(cells: seq<Cell>, i: int)
    requires Grouped(cells, i)
    ensures var t := GroupOf(cells, GroupKey(cells[i].slot).value);
      && Wakes(cells, i).0 == (if HasStatus(cells, t.s1, Shadow1) then t.s1 else if HasStatus(cells, t.s2, Shadow1) then t.s2 else -1)
      && Wakes(cells, i).1 == if HasStatus(cells, t.s1, Shadow1) && HasStatus(cells, t.s2, Shadow2) then t.s2 else -1
  {
  }

  // ---- ring order ----

  ghost predicate Listing(cells: seq<Cell>, active: seq<int>) {
    NoDup(active) && forall i :: i in active <==> IsActive(cells, i)
  }

  /** A chain of rows each of which points at the next. */
  ghost predicate Chain(cells: seq<Cell>, rows: seq<int>) {
    forall k :: 0 <= k < |rows| - 1 ==> PointerOf(cells, rows[k]) == ChannelOf(cells, rows[k + 1])
  }

  /** The last active row with a channel, as the dictionary over the active rows keeps it, or -1. */
  function ActiveWith(cells: seq<Cell>, channel: int): (i: int)
    ensures i == -1 || (IsActive(cells, i) && ChannelOf(cells, i) == channel)
    ensures forall j :: IsActive(cells, j) && ChannelOf(cells, j) == channel ==> j <= i
  {
    if cells == [] then -1
    else
      var n := |cells| - 1;
      if cells[n].status == Active && cells[n].channel == channel then n
      else
        assert forall j :: IsActive(cells, j) && j != n ==> IsActive(cells[..n], j);
        ActiveWith(cells[..n], channel)
  }

  /** The active row a row points at, or -1. */
  function NextRow(cells: seq<Cell>, i: int): int {
    if PointerOf(cells, i) != 0 then ActiveWith(cells, PointerOf(cells, i)) else -1
  }

  /** The rows reached by following pointers until one leads nowhere or to a channel already seen. */
  function WalkFrom(cells: seq<Cell>, current: int, visited: set<int>): (rows: seq<int>)
    ensures forall i :: i in rows ==> IsActive(cells, i)
    decreases ChannelsOf(cells, ActiveIndices(cells)) - visited
  {
    if !IsActive(cells, current) || ChannelOf(cells, current) in visited then []
    else
      assert current in ActiveIndices(cells);
      [current] + WalkFrom(cells, NextRow(cells, current), visited + {ChannelOf(cells, current)})
  }

  /** The rows whose channels are not in a set, in order. */
  function Unreached(cells: seq<Cell>, rows: seq<int>, visited: set<int>): seq<int> {
    if rows == [] then []
    else
      var last := rows[|rows| - 1];
      Unreached(cells, rows[..|rows| - 1], visited) + if ChannelOf(cells, last) in visited then [] else [last]
  }

  /** The ring order from a row: the walk, then the active rows it did not reach. */
  function RingOrderOf(cells: seq<Cell>, start: int): seq<int> {
    var walk := WalkFrom(cells, start, {});
    walk + Unreached(cells, ActiveIndices(cells), ChannelsOf(cells, walk))
  }

  method ChannelIndex(cells: seq<Cell>, active: seq<int>) returns (m: map<int, int>)
    requires active == ActiveIndices(cells)
    ensures forall ch :: if ch in m then m[ch] == ActiveWith(cells, ch) != -1 else ActiveWith(cells, ch) == -1
  {
    m := map[];
    for k := 0 to |active|
      invariant forall j :: 0 <= j < k ==> ChannelOf(cells, active[j]) in m && active[j] <= m[ChannelOf(cells, active[j])]
      invariant forall ch :: ch in m ==> m[ch] in active && ChannelOf(cells, m[ch]) == ch && m[ch] in active[..k]
    {
      m := m[ChannelOf(cells, active[k]) := active[k]];
    }
    forall ch ensures if ch in m then m[ch] == ActiveWith(cells, ch) != -1 else ActiveWith(cells, ch) == -1 {
      var i := ActiveWith(cells, ch);
      if i != -1 {
        assert i in active;
      }
    }
  }

  ghost predicate Carried(cells: seq<Cell>, rows: seq<int>, channel: int) {
    exists i :: i in rows && ChannelOf(cells, i) == channel
  }

  /** The pointer of the last row leads nowhere, to no active row, or back to a channel of the rows. */
  ghost predicate EndsAt(cells: seq<Cell>, rows: seq<int>) {
    && rows != []
    && var next := PointerOf(cells, rows[|rows| - 1]);
      NoFurther(cells, next) || Carried(cells, rows, next)
  }

  /** The first m rows follow the ring to where it ends. */
  ghost predicate FollowsFor(cells: seq<Cell>, rows: seq<int>, m: nat) {
    m <= |rows| && Chain(cells, rows[..m]) && EndsAt(cells, rows[..m])
  }

  /** The rows follow the ring, and leave it only where it ends. */
  ghost predicate FollowsRing(cells: seq<Cell>, rows: seq<int>) {
    exists m :: 0 <= m <= |rows| && Chain(cells, rows[..m]) && (m < |rows| ==> EndsAt(cells, rows[..m]))
  }

  /** Follows pointers from the start row until one leads nowhere or to a channel already seen;
      this ends on every pointer graph. */
  method Walk(cells: seq<Cell>, active: seq<int>, start: int) returns (walk: seq<int>, visited: set<int>)
    requires active == ActiveIndices(cells) && start in active
    ensures walk == WalkFrom(cells, start, {}) && visited == ChannelsOf(cells, walk)
    ensures NoDup(walk) && (forall i :: i in walk ==> i in active)
    ensures walk != [] && walk[0] == start && Chain(cells, walk) && EndsAt(cells, walk)
  {
    var channelToCell := ChannelIndex(cells, active);
    walk := [];
    visited := {};
    var current := start;
    while current != -1 && ChannelOf(cells, current) !in visited
      invariant current == -1 || IsActive(cells, current)
      invariant visited == ChannelsOf(cells, walk)
      invariant walk + WalkFrom(cells, current, visited) == WalkFrom(cells, start, {})
      decreases ChannelsOf(cells, active) - visited
    {
      assert current in active;
      WalkStep(cells, walk, current, visited);
      ChannelsSnoc(cells, walk, current);
      visited := visited + {cells[current].channel};
      if cells[current].status == Active {
        walk := walk + [current];
      }
      var next := cells[current].next;
      current := if next != 0 && next in channelToCell then channelToCell[next] else -1;
    }
    assert WalkFrom(cells, current, visited) == [] && walk + [] == walk;
    WholeWalk(cells, start);
  }

  lemma WholeWalk(cells: seq<Cell>, start: int)
    requires IsActive(cells, start)
    ensures var walk := WalkFrom(cells, start, {});
      && NoDup(walk) && (forall i :: i in walk ==> i in ActiveIndices(cells))
      && walk != [] && walk[0] == start && Chain(cells, walk) && EndsAt(cells, walk)
  {
    WalkNoDup(cells, start, {});
    WalkChain(cells, start, {});
  }

  /** A walk starts at its row, follows pointers, and ends where they lead nowhere or to a channel seen. */
  lemma {:induction false} WalkChain(cells: seq<Cell>, current: int, visited: set<int>)
    requires IsActive(cells, current) && ChannelOf(cells, current) !in visited
    ensures var rows := WalkFrom(cells, current, visited);
      && rows != [] && rows[0] == current && Chain(cells, rows)
      && var next := PointerOf(cells, rows[|rows| - 1]);
        NoFurther(cells, next) || next in visited || Carried(cells, rows, next)
    decreases ChannelsOf(cells, ActiveIndices(cells)) - visited
  {
    var next, seen := NextRow(cells, current), visited + {ChannelOf(cells, current)};
    var rest := WalkFrom(cells, next, seen);
    assert current in ActiveIndices(cells);
    assert WalkFrom(cells, current, visited) == [current] + rest;
    if rest == [] {
      WalkEnds(cells, current, visited);
    } else {
      WalkChain(cells, next, seen);
      CarriedBefore(cells, current, rest);
    }
  }

  lemma WalkEnds(cells: seq<Cell>, current: int, visited: set<int>)
    requires IsActive(cells, current)
    requires WalkFrom(cells, NextRow(cells, current), visited + {ChannelOf(cells, current)}) == []
    ensures var next := PointerOf(cells, current);
      NoFurther(cells, next) || next in visited || Carried(cells, [current], next)
  {
    assert current in [current];
  }

  lemma CarriedBefore(cells: seq<Cell>, first: int, rest: seq<int>)
    ensures forall ch :: Carried(cells, rest, ch) || ch == ChannelOf(cells, first) ==> Carried(cells, [first] + rest, ch)
  {
    assert first in [first] + rest;
    forall ch | Carried(cells, rest, ch) ensures Carried(cells, [first] + rest, ch) {
      var i :| i in rest && ChannelOf(cells, i) == ch;
      assert i in [first] + rest;
    }
  }

  lemma WalkStep(cells: seq<Cell>, walk: seq<int>, current: int, visited: set<int>)
    requires IsActive(cells, current) && ChannelOf(cells, current) !in visited
    ensures walk + WalkFrom(cells, current, visited) ==
      (walk + [current]) + WalkFrom(cells, NextRow(cells, current), visited + {cells[current].channel})
  {
    var rest := WalkFrom(cells, NextRow(cells, current), visited + {cells[current].channel});
    assert WalkFrom(cells, current, visited) == [current] + rest;
    Regroup(walk, [current], rest);
  }

  lemma Regroup(a: seq<int>, b: seq<int>, c: seq<int>)
    ensures a + (b + c) == (a + b) + c
  {
  }

  lemma ChannelsSnoc(cells: seq<Cell>, rows: seq<int>, i: int)
    ensures ChannelsOf(cells, rows + [i]) == ChannelsOf(cells, rows) + {ChannelOf(cells, i)}
  {
    assert i in rows + [i];
    forall j | j in rows ensures j in rows + [i] {
    }
  }

  /** A pointer that leads to no active row. */
  ghost predicate NoFurther(cells: seq<Cell>, next: int) {
    next == 0 || forall i :: IsActive(cells, i) ==> ChannelOf(cells, i) != next
  }

  method RingOrder(cells: seq<Cell>, active: seq<int>, start: int) returns (ordered: seq<int>)
    requires active == ActiveIndices(cells) && start in active
    ensures ordered == RingOrderOf(cells, start)
    ensures NoDup(ordered) && ordered != [] && ordered[0] == start && forall i :: i in ordered ==> i in active
    ensures DistinctChannels(cells, active) ==> multiset(ordered) == multiset(active)
  {
    var walk, visited := Walk(cells, active, start);
    ordered := AppendUnreached(cells, active, walk, visited);
    RingOrderFacts(cells, start);
  }

  /** The active rows the walk did not reach, after it. */
  method AppendUnreached(cells: seq<Cell>, active: seq<int>, walk: seq<int>, visited: set<int>) returns (ordered: seq<int>)
    requires forall i :: i in active ==> 0 <= i < |cells|
    ensures ordered == walk + Unreached(cells, active, visited)
  {
    ordered := walk;
    for k := 0 to |active|
      invariant ordered == walk + Unreached(cells, active[..k], visited)
    {
      assert active[..k + 1][..k] == active[..k] && active[k] in active;
      if cells[active[k]].channel !in visited {
        ordered := ordered + [active[k]];
      }
    }
    assert active[..|active|] == active;
  }

  /** The trigger row comes first, the order follows the ring until it ends, no row is listed twice, and a row is left out only
      when another listed row carries the same channel id: with distinct ids the order is a permutation. */
  lemma RingOrderFacts(cells: seq<Cell>, start: int)
    requires IsActive(cells, start)
    ensures var ordered, active := RingOrderOf(cells, start), ActiveIndices(cells);
      && NoDup(ordered) && (forall i :: i in ordered ==> i in active) && ordered != [] && ordered[0] == start
      && FollowsFor(cells, ordered, |WalkFrom(cells, start, {})|)
      && (forall i :: i in active && i !in ordered ==> Carried(cells, ordered, ChannelOf(cells, i)))
      && (DistinctChannels(cells, active) ==> multiset(ordered) == multiset(active))
  {
    WholeWalk(cells, start);
    ActiveIndicesListing(cells);
    OrderMembers(cells, ActiveIndices(cells), WalkFrom(cells, start, {}));
    assert RingOrderOf(cells, start)[..|WalkFrom(cells, start, {})|] == WalkFrom(cells, start, {});
    if DistinctChannels(cells, ActiveIndices(cells)) {
      RingOrderPermutes(cells, start);
    }
  }

  /** A walk without repeats, followed by what it did not reach, has no repeats and leaves out only rows whose channel the walk
      carries. */
  lemma OrderMembers(cells: seq<Cell>, active: seq<int>, walk: seq<int>)
    requires NoDup(active) && NoDup(walk) && forall i :: i in walk ==> i in active
    ensures var order := walk + Unreached(cells, active, ChannelsOf(cells, walk));
      && NoDup(order) && (forall i :: i in order ==> i in active)
      && forall i :: i in active && i !in order ==> Carried(cells, order, ChannelOf(cells, i))
  {
    var rest := Unreached(cells, active, ChannelsOf(cells, walk));
    var order := walk + rest;
    UnreachedMembers(cells, active, ChannelsOf(cells, walk));
    forall i | i in walk ensures i !in rest {
      assert ChannelOf(cells, i) in ChannelsOf(cells, walk);
    }
    forall j, k | 0 <= j < k < |order| ensures order[j] != order[k] {
      assert j < |walk| <= k ==> order[j] in walk && order[k] in rest;
    }
    forall i | i in active && i !in order ensures Carried(cells, order, ChannelOf(cells, i)) {
      var j :| j in walk && ChannelOf(cells, j) == ChannelOf(cells, i);
      assert j in order;
    }
  }

  lemma SameElements(a: seq<int>, b: seq<int>)
    requires NoDup(a) && NoDup(b)
    requires forall x :: x in a <==> x in b
    ensures multiset(a) == multiset(b)
  {
    forall x
      ensures multiset(a)[x] == multiset(b)[x]
    {
      NoDupCount(a, x);
      NoDupCount(b, x);
    }
  }

  lemma {:induction false} NoDupCount(s: seq<int>, x: int)
    requires NoDup(s)
    ensures multiset(s)[x] == if x in s then 1 else 0
  {
    if s != [] {
      var front, last := s[..|s| - 1], s[|s| - 1];
      NoDupCount(front, x);
      assert s == front + [last];
    }
  }

  // ---- what one rotation decides ----

  /** Rows to rest, (row to wake, row it replaces) pairs, and rows to raise to shadow1. */
  datatype Plan = Plan(demoted: seq<int>, promoted: seq<(int, int)>, cascades: seq<int>)

  /** The plan rests exactly the window's rows that belong to a group, wakes for each of them the
      promotable shadow of its group if there is one, and cascades that group's shadow2. */
  ghost predicate PlanFor(cells: seq<Cell>, window: seq<int>, plan: Plan) {
    && NoDup(plan.demoted)
    && (forall i :: i in plan.demoted <==> i in window && 0 <= i < |cells| && GroupKey(cells[i].slot).Some?)
    && (forall pair :: pair in plan.promoted <==> pair.1 in plan.demoted && pair.0 != -1 && pair.0 == Wakes(cells, pair.1).0)
    && (forall i :: i in plan.cascades <==> i != -1 && exists f :: f in plan.demoted && Wakes(cells, f).1 == i)
  }

  predicate Promotes(plan: Plan, i: int) {
    exists k :: 0 <= k < |plan.promoted| && plan.promoted[k].0 == i
  }

  /** Status of row i after the updates of a plan, in batch order: rest, wake, cascade. */
  function RotatedStatus(cells: seq<Cell>, plan: Plan, i: nat, before: Status): Status
    requires i < |cells|
  {
    if i in plan.cascades then Shadow1
    else if Promotes(plan, i) then Active
    else if i in plan.demoted && cells[i].status != Shadow1 then Shadow1
    else before
  }

  /** The rows that point at a channel, in order; no row points at channel 0. */
  function Pointing(cells: seq<Cell>, rows: seq<int>, channel: int): seq<int> {
    if rows == [] then []
    else
      var last := rows[|rows| - 1];
      Pointing(cells, rows[..|rows| - 1], channel) + if channel != 0 && PointerOf(cells, last) == channel then [last] else []
  }

  method Reverse(cells: seq<Cell>, active: seq<int>) returns (m: map<int, seq<int>>)
    ensures forall ch :: (if ch in m then m[ch] else []) == Pointing(cells, active, ch)
  {
    m := map[];
    for k := 0 to |active|
      invariant forall ch :: (if ch in m then m[ch] else []) == Pointing(cells, active[..k], ch)
    {
      PointingNext(cells, active, k);
      var next := PointerOf(cells, active[k]);
      if next != 0 {
        m := m[next := (if next in m then m[next] else []) + [active[k]]];
      }
    }
    assert active[..|active|] == active;
  }

  lemma PointingNext(cells: seq<Cell>, active: seq<int>, k: nat)
    requires k < |active|
    ensures forall ch ::
      Pointing(cells, active[..k + 1], ch) ==
        Pointing(cells, active[..k], ch) + if ch != 0 && PointerOf(cells, active[k]) == ch then [active[k]] else []
  {
    assert active[..k + 1][..k] == active[..k];
  }

  /** The plan with one more row rested, its group's pair woken and cascaded. */
  function Extended(plan: Plan, i: int, woken: (int, int)): Plan {
    Plan(plan.demoted + [i],
         if woken.0 != -1 then plan.promoted + [(woken.0, i)] else plan.promoted,
         if woken.0 != -1 && woken.1 != -1 then plan.cascades + [woken.1] else plan.cascades)
  }

  lemma PlanExtends(cells: seq<Cell>, window: seq<int>, plan: Plan, i: int)
    requires PlanFor(cells, window, plan) && i !in window && 0 <= i < |cells| && GroupKey(cells[i].slot).Some?
    ensures PlanFor(cells, window + [i], Extended(plan, i, Wakes(cells, i)))
  {
    var woken, after := Wakes(cells, i), Extended(plan, i, Wakes(cells, i));
    assert forall f :: f in after.demoted <==> f in plan.demoted || f == i;
    assert woken.1 != -1 ==> woken.0 != -1;
    forall c
      ensures c in after.cascades <==> c != -1 && exists f :: f in after.demoted && Wakes(cells, f).1 == c
    {
      if c in plan.cascades {
        var f :| f in plan.demoted && Wakes(cells, f).1 == c;
        assert f in after.demoted;
      } else if c in after.cascades {
        assert i in after.demoted && woken.1 == c;
      }
    }
  }

  lemma PlanSkips(cells: seq<Cell>, window: seq<int>, plan: Plan, i: int)
    requires PlanFor(cells, window, plan) && !(0 <= i < |cells| && GroupKey(cells[i].slot).Some?)
    ensures PlanFor(cells, window + [i], plan)
  {
  }

  /** Re-points the predecessors of a rested slot that are not rested themselves. */
  function RepairsFor(cells: seq<Cell>, preds: seq<int>, slot: string, demotedSlots: set<string>, next: int): seq<(string, int)> {
    if preds == [] then []
    else
      var last := SlotOf(cells, preds[|preds| - 1]);
      RepairsFor(cells, preds[..|preds| - 1], slot, demotedSlots, next) +
      if last != slot && last !in demotedSlots then [(last, next)] else []
  }

  method RepairsOf(cells: seq<Cell>, preds: seq<int>, slot: string, demotedSlots: set<string>, next: int)
    returns (repairs: seq<(string, int)>)
    ensures repairs == RepairsFor(cells, preds, slot, demotedSlots, next)
    ensures forall r :: r in repairs <==>
      r.1 == next && r.0 != slot && r.0 !in demotedSlots && exists i :: i in preds && SlotOf(cells, i) == r.0
  {
    repairs := [];
    for k := 0 to |preds|
      invariant repairs == RepairsFor(cells, preds[..k], slot, demotedSlots, next)
    {
      assert preds[..k + 1][..k] == preds[..k];
      if SlotOf(cells, preds[k]) != slot && SlotOf(cells, preds[k]) !in demotedSlots {
        repairs := repairs + [(SlotOf(cells, preds[k]), next)];
      }
    }
    assert preds[..|preds|] == preds;
    RepairsForMembers(cells, preds, slot, demotedSlots, next);
  }

  lemma {:induction false} RepairsForMembers(cells: seq<Cell>, preds: seq<int>, slot: string, demotedSlots: set<string>, next: int)
    ensures forall r :: r in RepairsFor(cells, preds, slot, demotedSlots, next) <==>
      r.1 == next && r.0 != slot && r.0 !in demotedSlots && exists i :: i in preds && SlotOf(cells, i) == r.0
  {
    if preds != [] {
      var front, last := preds[..|preds| - 1], preds[|preds| - 1];
      RepairsForMembers(cells, front, slot, demotedSlots, next);
      assert forall i :: i in preds <==> i in front || i == last by {
        assert preds == front + [last];
      }
    }
  }

  predicate Grouped(cells: seq<Cell>, i: int) {
    0 <= i < |cells| && GroupKey(cells[i].slot).Some?
  }

  /** The plan for a window, row by row. */
  function PlanOf(cells: seq<Cell>, window: seq<int>): Plan {
    if window == [] then Plan([], [], [])
    else
      var before, i := PlanOf(cells, window[..|window| - 1]), window[|window| - 1];
      if Grouped(cells, i) then Extended(before, i, Wakes(cells, i)) else before
  }

  /** The slots of a window's grouped rows. */
  function RestedSlots(cells: seq<Cell>, window: seq<int>): set<string> {
    if window == [] then {}
    else
      var i := window[|window| - 1];
      RestedSlots(cells, window[..|window| - 1]) + if Grouped(cells, i) then {SlotOf(cells, i)} else {}
  }

  /** The repairs a window asks for: for each rested row with a replacement, its active predecessors that are not rested so far. */
  function RepairsOfWindow(cells: seq<Cell>, window: seq<int>): seq<(string, int)> {
    if window == [] then []
    else
      var i := window[|window| - 1];
      RepairsOfWindow(cells, window[..|window| - 1]) +
      if Grouped(cells, i) && Wakes(cells, i).0 != -1
      then RepairsFor(cells, Pointing(cells, ActiveIndices(cells), ChannelOf(cells, i)), SlotOf(cells, i), RestedSlots(cells, window),
                      ChannelOf(cells, Wakes(cells, i).0))
      else []
  }

  lemma PlanNext(cells: seq<Cell>, window: seq<int>, n: nat)
    requires n < |window| && 0 <= window[n] < |cells|
    ensures var i, before := window[n], window[..n];
      var rested := RestedSlots(cells, before) + {cells[i].slot};
      if !Grouped(cells, i) then
        && PlanOf(cells, window[..n + 1]) == PlanOf(cells, before) && RestedSlots(cells, window[..n + 1]) == RestedSlots(cells, before)
        && RepairsOfWindow(cells, window[..n + 1]) == RepairsOfWindow(cells, before)
      else
        && PlanOf(cells, window[..n + 1]) == Extended(PlanOf(cells, before), i, Wakes(cells, i))
        && RestedSlots(cells, window[..n + 1]) == rested
        && RepairsOfWindow(cells, window[..n + 1]) == RepairsOfWindow(cells, before) +
          if Wakes(cells, i).0 == -1 then [] else
          RepairsFor(cells, Pointing(cells, ActiveIndices(cells), cells[i].channel), cells[i].slot, rested,
            cells[Wakes(cells, i).0].channel)
  {
    assert window[..n + 1][..n] == window[..n];
  }

  /** One grouped row of the window: it rests, its group's shadow is woken, its predecessors are repaired. */
  method PlanRow(cells: seq<Cell>, groups: map<string, Triple>, reverse: map<int, seq<int>>, i: int, plan0: Plan, slots0: set<string>,
                 repairs0: seq<(string, int)>) returns (plan: Plan, demotedSlots: set<string>, repairs: seq<(string, int)>)
    requires Grouped(cells, i)
    requires GroupKey(cells[i].slot).value in groups &&
      groups[GroupKey(cells[i].slot).value] == GroupOf(cells, GroupKey(cells[i].slot).value)
    requires forall ch :: (if ch in reverse then reverse[ch] else []) == Pointing(cells, ActiveIndices(cells), ch)
    ensures plan == Extended(plan0, i, Wakes(cells, i)) && demotedSlots == slots0 + {cells[i].slot}
    ensures repairs == repairs0 +
      if Wakes(cells, i).0 == -1 then [] else
      RepairsFor(cells, Pointing(cells, ActiveIndices(cells), cells[i].channel), cells[i].slot, demotedSlots,
          cells[Wakes(cells, i).0].channel)
  {
    demotedSlots := slots0 + {cells[i].slot};
    repairs := repairs0;
    var woken := NextPromotable(cells, groups[GroupKey(cells[i].slot).value]);
    if woken.0 != -1 {
      var preds := if cells[i].channel in reverse then reverse[cells[i].channel] else [];
      var more := RepairsOf(cells, preds, cells[i].slot, demotedSlots, cells[woken.0].channel);
      repairs := repairs + more;
    }
    plan := Extended(plan0, i, woken);
  }

  /** Decides the plan; repairs re-point the active predecessors of a rested cell at its replacement. */
  method MakePlan(cells: seq<Cell>, active: seq<int>, window: seq<int>)
    returns (plan: Plan, repairs: seq<(string, int)>)
    requires UniqueSlots(cells) && active == ActiveIndices(cells) && NoDup(window)
    requires forall i :: i in window ==> i in active
    ensures plan == PlanOf(cells, window) && repairs == RepairsOfWindow(cells, window)
    ensures PlanFor(cells, window, plan)
  {
    var groups := GroupSlots(cells);
    var reverse := Reverse(cells, active);
    plan := Plan([], [], []);
    var demotedSlots: set<string> := {};
    repairs := [];
    for n := 0 to |window|
      invariant plan == PlanOf(cells, window[..n]) && demotedSlots == RestedSlots(cells, window[..n])
      invariant repairs == RepairsOfWindow(cells, window[..n])
    {
      assert window[n] in window;
      PlanNext(cells, window, n);
      if GroupKey(cells[window[n]].slot).None? {
        continue;
      }
      plan, demotedSlots, repairs := PlanRow(cells, groups, reverse, window[n], plan, demotedSlots, repairs);
    }
    assert window[..|window|] == window;
    forall i | i in window ensures 0 <= i < |cells| {
      assert i in active;
    }
    PlanOfIsPlan(cells, window);
  }

  lemma {:induction false} PlanOfIsPlan(cells: seq<Cell>, window: seq<int>)
    requires NoDup(window) && forall i :: i in window ==> 0 <= i < |cells|
    ensures PlanFor(cells, window, PlanOf(cells, window))
  {
    if window != [] {
      var front, i := window[..|window| - 1], window[|window| - 1];
      assert window == front + [i] && i in window;
      forall j | j in front ensures 0 <= j < |cells| {
        assert j in window;
      }
      PlanOfIsPlan(cells, front);
      if Grouped(cells, i) {
        PlanExtends(cells, front, PlanOf(cells, front), i);
      } else {
        PlanSkips(cells, front, PlanOf(cells, front), i);
      }
    }
  }

  /** Something is promoted exactly when a row of the window wakes a shadow. */
  lemma PromotesIffWakeable(cells: seq<Cell>, window: seq<int>, plan: Plan)
    requires PlanFor(cells, window, plan)
    ensures plan.promoted != [] <==> Wakeable(cells, window)
  {
    if plan.promoted != [] {
      var pair := plan.promoted[0];
      assert pair in plan.promoted && pair.1 in window;
    }
    if Wakeable(cells, window) {
      var k :| 0 <= k < |window| && Wakes(cells, window[k]).0 != -1;
      assert window[k] in window && (Wakes(cells, window[k]).0, window[k]) in plan.promoted;
    }
  }

  function SlotOf(cells: seq<Cell>, i: int): string {
    if 0 <= i < |cells| then cells[i].slot else ""
  }

  // ---- updates of one rotation ----

  const NoFields := Update("", None, None, None, None, None, None)

  /** The channels that replace rested slots. */
  function ReplacementBySlot(cells: seq<Cell>, promoted: seq<(int, int)>): map<string, int> {
    if promoted == [] then map[]
    else
      var (p, f) := promoted[|promoted| - 1];
      ReplacementBySlot(cells, promoted[..|promoted| - 1])[SlotOf(cells, f) := ChannelOf(cells, p)]
  }

  /** Counters of row i after the updates of a plan: a rested row counts from 0 and names its replacement, a woken
      row starts now, a cascaded row is clean. */
  function RotatedCounters(cells: seq<Cell>, plan: Plan, heirs: map<string, int>, now: int, i: nat, before: Counters): Counters
    requires i < |cells|
  {
    var rested := if i in plan.demoted then Rested(before, heirs, cells[i].slot) else before;
    var woken := if Promotes(plan, i) then rested.(fileCount := 0, started := Some(now), demotedTo := 0) else rested;
    if i in plan.cascades then woken.(fileCount := 0, degradeCount := 0, demotedTo := 0) else woken
  }

  function Rested(before: Counters, heirs: map<string, int>, slot: string): Counters {
    before.(fileCount := 0, demotedTo := if slot in heirs then heirs[slot] else before.demotedTo)
  }

  // ---- the first batch, update by update ----

  /** What a plan made for active rows looks like: different active rows to rest, and shadows of their groups to wake. */
  ghost predicate Decided(cells: seq<Cell>, plan: Plan) {
    && NoDup(plan.demoted) && (forall i :: i in plan.demoted ==> IsActive(cells, i))
    && (forall p :: p in plan.promoted ==>
      && p.1 in plan.demoted && 0 <= p.0 < |cells| && cells[p.0].status == Shadow1 && Position(cells[p.0].slot) != Some(0))
  }

  lemma PlanIsDecided(cells: seq<Cell>, window: seq<int>, plan: Plan)
    requires PlanFor(cells, window, plan) && forall i :: i in window ==> IsActive(cells, i)
    ensures Decided(cells, plan) && forall i :: i in plan.cascades ==> 0 <= i < |cells|
  {
    PlanInRange(cells, window, plan);
    forall p | p in plan.promoted ensures Position(cells[p.0].slot) != Some(0) {
      assert p.0 == Wakes(cells, p.1).0;
    }
  }

  function RestUpdate(cells: seq<Cell>, heirs: map<string, int>, i: int): Update {
    var slot := SlotOf(cells, i);
    NoFields.(slot := slot, status := Some(Shadow1), fileCount := Some(0), next := Some(0),
              demotedTo := if slot in heirs then Some(heirs[slot]) else None)
  }

  function RestBatch(cells: seq<Cell>, heirs: map<string, int>, demoted: seq<int>, k: nat): seq<Update>
    requires k <= |demoted|
  {
    if k == 0 then [] else RestBatch(cells, heirs, demoted, k - 1) + [RestUpdate(cells, heirs, demoted[k - 1])]
  }

  function Redirect(next: int, replacement: map<int, int>): int {
    if next != 0 && next in replacement then replacement[next] else next
  }

  /** The pointer a row woken for f gets. The pointers of rested rows are gone already when the list is the cached one. */
  function WokenNext(cells: seq<Cell>, demoted: seq<int>, f: int, replacement: map<int, int>, cached: bool): int {
    Redirect(InheritedNext(if cached then WithoutPointers(cells, demoted) else cells, f), replacement)
  }

  function WithoutPointers(cells: seq<Cell>, demoted: seq<int>): (r: seq<Cell>)
    ensures SameStatuses(r, cells)
    ensures forall i :: 0 <= i < |cells| ==> r[i].next == if i in demoted then 0 else cells[i].next
  {
    seq(|cells|, i requires 0 <= i < |cells| => if i in demoted then cells[i].(next := 0) else cells[i])
  }

  function WakeUpdate(cells: seq<Cell>, demoted: seq<int>, pair: (int, int), replacement: map<int, int>, cached: bool, now: int): Update {
    NoFields.(slot := SlotOf(cells, pair.0), status := Some(Active),
              next := Some(WokenNext(cells, demoted, pair.1, replacement, cached)), fileCount := Some(0), started := Some(now),
              demotedTo := Some(0))
  }

  function WakeBatch(cells: seq<Cell>, demoted: seq<int>, promoted: seq<(int, int)>, replacement: map<int, int>, cached: bool, now: int,
                     k: nat): seq<Update>
    requires k <= |promoted|
  {
    if k == 0 then []
    else
      WakeBatch(cells, demoted, promoted, replacement, cached, now, k - 1) +
      [WakeUpdate(cells, demoted, promoted[k - 1], replacement, cached, now)]
  }

  function CascadeUpdate(cells: seq<Cell>, i: int): Update {
    NoFields.(slot := SlotOf(cells, i), status := Some(Shadow1), fileCount := Some(0), degradeCount := Some(0), next := Some(0),
              demotedTo := Some(0))
  }

  function CascadeBatch(cells: seq<Cell>, cascades: seq<int>, k: nat): seq<Update>
    requires k <= |cascades|
  {
    if k == 0 then [] else CascadeBatch(cells, cascades, k - 1) + [CascadeUpdate(cells, cascades[k - 1])]
  }

  function RepairBatch(repairs: seq<(string, int)>, replacement: map<int, int>, k: nat): seq<Update>
    requires k <= |repairs|
  {
    if k == 0 then []
    else
      RepairBatch(repairs, replacement, k - 1) +
      [NoFields.(slot := repairs[k - 1].0, next := Some(Redirect(repairs[k - 1].1, replacement)))]
  }

  /** Rested channel -> woken channel. */
  function ReplacementByChannel(cells: seq<Cell>, promoted: seq<(int, int)>): map<int, int> {
    if promoted == [] then map[]
    else
      var (p, f) := promoted[|promoted| - 1];
      ReplacementByChannel(cells, promoted[..|promoted| - 1])[ChannelOf(cells, f) := ChannelOf(cells, p)]
  }

  /** Rest, wake, cascade, repair. */
  function FirstBatch(cells: seq<Cell>, plan: Plan, repairs: seq<(string, int)>, cached: bool, now: int): seq<Update> {
    var heirs, replacement := ReplacementBySlot(cells, plan.promoted), ReplacementByChannel(cells, plan.promoted);
    RestBatch(cells, heirs, plan.demoted, |plan.demoted|) +
    WakeBatch(cells, plan.demoted, plan.promoted, replacement, cached, now, |plan.promoted|) +
    CascadeBatch(cells, plan.cascades, |plan.cascades|) + RepairBatch(repairs, replacement, |repairs|)
  }

  lemma SameGroups(a: seq<Cell>, b: seq<Cell>, key: string)
    requires SameSlots(a, b)
    ensures GroupOf(a, key) == GroupOf(b, key)
  {
    assert forall pos, i :: InSlot(a, i, key, pos) <==> InSlot(b, i, key, pos);
  }

  /** A slot names one row. */
  lemma SlotNames(cells: seq<Cell>, i: int, j: nat, slot: string)
    requires UniqueSlots(cells) && 0 <= i < |cells| && j < |cells| && slot == cells[j].slot
    ensures SlotOf(cells, i) == slot <==> i == j
  {
  }

  lemma {:induction false} RestRow(cells: seq<Cell>, heirs: map<string, int>, demoted: seq<int>, k: nat, j: nat, c: Cell)
    requires UniqueSlots(cells) && NoDup(demoted) && forall i :: i in demoted ==> 0 <= i < |cells|
    requires k <= |demoted| && j < |cells| && c.slot == cells[j].slot
    ensures RowAfter(RestBatch(cells, heirs, demoted, k), c) == if j in demoted[..k] then Apply(c, RestUpdate(cells, heirs, j)) else c
  {
    if k > 0 {
      RestRow(cells, heirs, demoted, k - 1, j, c);
      RowAfterSnoc(RestBatch(cells, heirs, demoted, k - 1), RestUpdate(cells, heirs, demoted[k - 1]), c);
      assert demoted[k - 1] in demoted && demoted[..k] == demoted[..k - 1] + [demoted[k - 1]];
      SlotNames(cells, demoted[k - 1], j, c.slot);
    }
  }

  /** The last pair that wakes row j among the first k, or -1. */
  function WokenBy(promoted: seq<(int, int)>, k: nat, j: int): (w: int)
    requires k <= |promoted|
    ensures -1 <= w < k && (w != -1 ==> promoted[w].0 == j)
    ensures w == -1 <==> forall m :: 0 <= m < k ==> promoted[m].0 != j
  {
    if k == 0 then -1 else if promoted[k - 1].0 == j then k - 1 else WokenBy(promoted, k - 1, j)
  }

  lemma {:induction false} WakeRow(cells: seq<Cell>, demoted: seq<int>, promoted: seq<(int, int)>, replacement: map<int, int>,
                                   cached: bool, now: int, k: nat, j: nat, c: Cell)
    requires UniqueSlots(cells) && forall p :: p in promoted ==> 0 <= p.0 < |cells|
    requires k <= |promoted| && j < |cells| && c.slot == cells[j].slot
    ensures var w := WokenBy(promoted, k, j);
      RowAfter(WakeBatch(cells, demoted, promoted, replacement, cached, now, k), c) ==
        if w == -1 then c else Apply(c, WakeUpdate(cells, demoted, promoted[w], replacement, cached, now))
  {
    if k > 0 {
      WakeRow(cells, demoted, promoted, replacement, cached, now, k - 1, j, c);
      RowAfterSnoc(WakeBatch(cells, demoted, promoted, replacement, cached, now, k - 1),
        WakeUpdate(cells, demoted, promoted[k - 1], replacement, cached, now), c);
      assert promoted[k - 1] in promoted;
      SlotNames(cells, promoted[k - 1].0, j, c.slot);
      WakeTwice(cells, demoted, promoted, replacement, cached, now, k, j, c);
    }
  }

  /** A later wake update overrides an earlier one. */
  lemma WakeTwice(cells: seq<Cell>, demoted: seq<int>, promoted: seq<(int, int)>, replacement: map<int, int>, cached: bool, now: int,
                  k: nat, j: nat, c: Cell)
    requires 0 < k <= |promoted|
    ensures var u := WakeUpdate(cells, demoted, promoted[k - 1], replacement, cached, now);
      forall pair :: Apply(Apply(c, WakeUpdate(cells, demoted, pair, replacement, cached, now)), u) == Apply(c, u)
  {
  }

  lemma FirstRows(rows: seq<int>, k: nat, j: int)
    requires 0 < k <= |rows|
    ensures rows[k - 1] in rows && (j in rows[..k] <==> j in rows[..k - 1] || j == rows[k - 1])
  {
    assert rows[..k] == rows[..k - 1] + [rows[k - 1]];
  }

  lemma ApplyTwice(c: Cell, u: Update)
    ensures Apply(Apply(c, u), u) == Apply(c, u)
  {
  }

  lemma {:induction false} CascadeRow(cells: seq<Cell>, cascades: seq<int>, k: nat, j: nat, c: Cell)
    requires UniqueSlots(cells) && forall i :: i in cascades ==> 0 <= i < |cells|
    requires k <= |cascades| && j < |cells| && c.slot == cells[j].slot
    ensures RowAfter(CascadeBatch(cells, cascades, k), c) == if j in cascades[..k] then Apply(c, CascadeUpdate(cells, j)) else c
  {
    if k > 0 {
      CascadeRow(cells, cascades, k - 1, j, c);
      RowAfterSnoc(CascadeBatch(cells, cascades, k - 1), CascadeUpdate(cells, cascades[k - 1]), c);
      FirstRows(cascades, k, j);
      SlotNames(cells, cascades[k - 1], j, c.slot);
      ApplyTwice(c, CascadeUpdate(cells, j));
    }
  }

  /** The pointer the last repair of a slot among the first k leaves. */
  function FixedNext(repairs: seq<(string, int)>, replacement: map<int, int>, k: nat, slot: string, before: int): int
    requires k <= |repairs|
  {
    if k == 0 then before
    else if repairs[k - 1].0 == slot then Redirect(repairs[k - 1].1, replacement)
    else FixedNext(repairs, replacement, k - 1, slot, before)
  }

  lemma {:induction false} RepairRow(repairs: seq<(string, int)>, replacement: map<int, int>, k: nat, c: Cell)
    requires k <= |repairs|
    ensures RowAfter(RepairBatch(repairs, replacement, k), c) == c.(next := FixedNext(repairs, replacement, k, c.slot, c.next))
  {
    if k > 0 {
      RepairRow(repairs, replacement, k - 1, c);
      RowAfterSnoc(RepairBatch(repairs, replacement, k - 1),
        NoFields.(slot := repairs[k - 1].0, next := Some(Redirect(repairs[k - 1].1, replacement))), c);
    }
  }

  /** Row j after the first batch, from a row c of its slot. */
  function FirstRow(cells: seq<Cell>, plan: Plan, repairs: seq<(string, int)>, cached: bool, now: int, j: nat, c: Cell): Cell {
    var replacement := ReplacementByChannel(cells, plan.promoted);
    var rested := if j in plan.demoted then Apply(c, RestUpdate(cells, ReplacementBySlot(cells, plan.promoted), j)) else c;
    var w := WokenBy(plan.promoted, |plan.promoted|, j);
    var woken := if w == -1 then rested
      else Apply(rested, WakeUpdate(cells, plan.demoted, plan.promoted[w], replacement, cached, now));
    var raised := if j in plan.cascades then Apply(woken, CascadeUpdate(cells, j)) else woken;
    raised.(next := FixedNext(repairs, replacement, |repairs|, c.slot, raised.next))
  }

  lemma FirstBatchRow(cells: seq<Cell>, plan: Plan, repairs: seq<(string, int)>, cached: bool, now: int, j: nat, c: Cell)
    requires UniqueSlots(cells) && Decided(cells, plan) && (forall i :: i in plan.cascades ==> 0 <= i < |cells|)
    requires j < |cells| && c.slot == cells[j].slot
    ensures RowAfter(FirstBatch(cells, plan, repairs, cached, now), c) == FirstRow(cells, plan, repairs, cached, now, j, c)
  {
    var heirs, replacement := ReplacementBySlot(cells, plan.promoted), ReplacementByChannel(cells, plan.promoted);
    var rest := RestBatch(cells, heirs, plan.demoted, |plan.demoted|);
    var wake := WakeBatch(cells, plan.demoted, plan.promoted, replacement, cached, now, |plan.promoted|);
    var raise := CascadeBatch(cells, plan.cascades, |plan.cascades|);
    var repair := RepairBatch(repairs, replacement, |repairs|);
    RowAfterConcat(rest + wake + raise, repair, c);
    RowAfterConcat(rest + wake, raise, c);
    RowAfterConcat(rest, wake, c);
    RestRow(cells, heirs, plan.demoted, |plan.demoted|, j, c);
    assert plan.demoted[..|plan.demoted|] == plan.demoted && plan.cascades[..|plan.cascades|] == plan.cascades;
    var r1 := RowAfter(rest, c);
    WakeRow(cells, plan.demoted, plan.promoted, replacement, cached, now, |plan.promoted|, j, r1);
    var r2 := RowAfter(wake, r1);
    CascadeRow(cells, plan.cascades, |plan.cascades|, j, r2);
    RepairRow(repairs, replacement, |repairs|, RowAfter(raise, r2));
  }

  /** Rows that are active or in an a slot are not woken. */
  lemma NeverWoken(cells: seq<Cell>, plan: Plan, k: nat, j: nat)
    requires Decided(cells, plan) && k <= |plan.promoted| && j < |cells|
    requires cells[j].status == Active || Position(cells[j].slot) == Some(0)
    ensures WokenBy(plan.promoted, k, j) == -1
  {
    forall m | 0 <= m < k ensures plan.promoted[m].0 != j {
      assert plan.promoted[m] in plan.promoted;
    }
  }

  /** An active row that is not rested yet still shows as active. */
  lemma ShownActive(cells: seq<Cell>, heirs: map<string, int>, demoted: seq<int>, k: nat)
    requires UniqueSlots(cells) && NoDup(demoted) && (forall i :: i in demoted ==> IsActive(cells, i))
    requires k < |demoted| && 0 <= demoted[k] < |cells|
    ensures UpdateAll(cells, RestBatch(cells, heirs, demoted, k))[demoted[k]].status == Active
  {
    assert demoted[k] in demoted;
    RestRow(cells, heirs, demoted, k, demoted[k], cells[demoted[k]]);
    UpdateAllRow(cells, RestBatch(cells, heirs, demoted, k), demoted[k]);
  }

  /** What a cached list shows of the pointers of active rows and a slots: those of rested rows are gone. */
  lemma ShownPointer(cells: seq<Cell>, heirs: map<string, int>, plan: Plan, replacement: map<int, int>, cached: bool, now: int,
      k: nat, j: nat)
    requires UniqueSlots(cells) && Decided(cells, plan) && k <= |plan.promoted| && j < |cells|
    requires cells[j].status == Active || Position(cells[j].slot) == Some(0)
    ensures var rest := RestBatch(cells, heirs, plan.demoted, |plan.demoted|);
      var wake := WakeBatch(cells, plan.demoted, plan.promoted, replacement, cached, now, k);
      UpdateAll(cells, rest + wake)[j].next == WithoutPointers(cells, plan.demoted)[j].next
  {
    var rest := RestBatch(cells, heirs, plan.demoted, |plan.demoted|);
    var wake := WakeBatch(cells, plan.demoted, plan.promoted, replacement, cached, now, k);
    UpdateAllRow(cells, rest + wake, j);
    RowAfterConcat(rest, wake, cells[j]);
    RestRow(cells, heirs, plan.demoted, |plan.demoted|, j, cells[j]);
    assert plan.demoted[..|plan.demoted|] == plan.demoted;
    WakeRow(cells, plan.demoted, plan.promoted, replacement, cached, now, k, j, RowAfter(rest, cells[j]));
    NeverWoken(cells, plan, k, j);
  }

  /** What is inherited depends on the pointers of the rested row and of its group's a slot only. */
  lemma SameInherited(a: seq<Cell>, b: seq<Cell>, f: nat)
    requires SameSlots(a, b) && f < |a| && a[f].next == b[f].next
    requires forall j :: 0 <= j < |a| && Position(a[j].slot) == Some(0) ==> a[j].next == b[j].next
    ensures InheritedNext(a, f) == InheritedNext(b, f)
  {
    if GroupKey(a[f].slot).Some? {
      SameGroups(a, b, GroupKey(a[f].slot).value);
    }
  }

  /** The list shows what WokenNext reads. */
  lemma ShownNext(cells: seq<Cell>, shown: seq<Cell>, heirs: map<string, int>, plan: Plan, replacement: map<int, int>, cached: bool,
                  now: int, k: nat, f: int)
    requires UniqueSlots(cells) && Decided(cells, plan) && k <= |plan.promoted| && f in plan.demoted
    requires var rest := RestBatch(cells, heirs, plan.demoted, |plan.demoted|);
      var wake := WakeBatch(cells, plan.demoted, plan.promoted, replacement, cached, now, k);
      shown == if cached then UpdateAll(cells, rest + wake) else cells
    ensures Redirected(shown, f, replacement) == WokenNext(cells, plan.demoted, f, replacement, cached)
  {
    if cached {
      var bare := WithoutPointers(cells, plan.demoted);
      forall j: nat | j < |cells| && (j == f || Position(cells[j].slot) == Some(0)) ensures shown[j].next == bare[j].next {
        ShownPointer(cells, heirs, plan, replacement, cached, now, k, j);
      }
      SameInherited(shown, bare, f);
    }
  }

  lemma AppendLast(a: seq<Update>, b: seq<Update>, u: Update)
    ensures (a + b) + [u] == a + (b + [u])
  {
  }

  /** The woken channel for each rested channel, and for each rested slot. */
  method Replacements(cells: seq<Cell>, promoted: seq<(int, int)>) returns (replacement: map<int, int>, heirs: map<string, int>)
    ensures replacement == ReplacementByChannel(cells, promoted) && heirs == ReplacementBySlot(cells, promoted)
  {
    replacement, heirs := map[], map[];
    for k := 0 to |promoted|
      invariant heirs == ReplacementBySlot(cells, promoted[..k])
      invariant replacement == ReplacementByChannel(cells, promoted[..k])
    {
      assert promoted[..k + 1][..k] == promoted[..k];
      var (p, f) := promoted[k];
      replacement := replacement[ChannelOf(cells, f) := ChannelOf(cells, p)];
      heirs := heirs[SlotOf(cells, f) := ChannelOf(cells, p)];
    }
    assert promoted[..|promoted|] == promoted;
  }

  class MonBot {
    var cells: seq<Cell>  // the list handed to the rotation check
    var cached: bool      // that list is still the one held in the cache, so cache updates reach it
    var store: seq<Cell>  // table cells_local
    var windowSize: nat
    var filesPerSlot: int
    var timePerSlot: int

    /** The row list handed over shows every row of the table and every active row as active. */
    ghost predicate Fresh()
      reads this
    {
      && UniqueSlots(store) && SameSlots(cells, store)
      && forall i :: IsActive(store, i) ==> IsActive(cells, i)
    }

    method UpdateCellInCache(u: Update)
      requires UniqueSlots(cells)
      modifies this`cells
      ensures cells == if cached then UpdateRows(old(cells), u) else old(cells)
    {
      if !cached {
        return;
      }
      for i := 0 to |cells|
        invariant cells == old(cells)
        invariant forall k :: 0 <= k < i ==> cells[k].slot != u.slot
      {
        if cells[i].slot == u.slot {
          cells := cells[i := Apply(cells[i], u)];
          return;
        }
      }
    }

    /** One SQLite transaction: all updates or, when it fails, none; a failure is logged and not raised. */
    method BatchUpdateCells(batch: seq<Update>, ok: bool)
      modifies this`store
      ensures store == if ok then UpdateAll(old(store), batch) else old(store)
    {
      if batch == [] || !ok {
        return;
      }
      for k := 0 to |batch|
        invariant store == UpdateAll(old(store), batch[..k])
      {
        assert batch[..k + 1][..k] == batch[..k];
        store := UpdateRows(store, batch[k]);
      }
      assert batch[..|batch|] == batch;
    }

    /** The cached list shows the batch built so far exactly when it is the cached one. */
    ghost predicate Shows(cells0: seq<Cell>, batch: seq<Update>)
      reads this
    {
      cells == if cached then UpdateAll(cells0, batch) else cells0
    }

    method Record(ghost cells0: seq<Cell>, batch: seq<Update>, u: Update) returns (batch': seq<Update>)
      requires UniqueSlots(cells) && Shows(cells0, batch)
      modifies this`cells
      ensures batch' == batch + [u] && Shows(cells0, batch')
      ensures SameSlots(cells, old(cells))
    {
      UpdateAllSnoc(cells0, batch, u);
      UpdateCellInCache(u);
      batch' := batch + [u];
    }

    method RestCell(ghost cells0: seq<Cell>, batch0: seq<Update>, i: int, heirs: map<string, int>) returns (batch: seq<Update>)
      requires UniqueSlots(cells0) && SameSlots(cells, cells0) && Shows(cells0, batch0) && 0 <= i < |cells0|
      modifies this`cells
      ensures SameSlots(cells, cells0) && Shows(cells0, batch)
      ensures old(cells)[i].status != Shadow1 ==> batch == batch0 + [RestUpdate(cells0, heirs, i)]
    {
      var slot := cells[i].slot;
      var heir := if slot in heirs then Some(heirs[slot]) else None;
      batch := batch0;
      if cells[i].status != Shadow1 {
        batch := Record(cells0, batch,
          NoFields.(slot := slot, status := Some(Shadow1), fileCount := Some(0), next := Some(0), demotedTo := heir));
      } else if heir.Some? {
        batch := Record(cells0, batch, NoFields.(slot := slot, fileCount := Some(0), next := Some(0), demotedTo := heir));
      }
    }

    method RestCells(ghost cells0: seq<Cell>, demoted: seq<int>, heirs: map<string, int>) returns (batch: seq<Update>)
      requires cells == cells0 && UniqueSlots(cells0)
      requires NoDup(demoted) && forall i :: i in demoted ==> IsActive(cells0, i)
      modifies this`cells
      ensures SameSlots(cells, cells0) && Shows(cells0, batch) && batch == RestBatch(cells0, heirs, demoted, |demoted|)
    {
      batch := [];
      for k := 0 to |demoted|
        invariant SameSlots(cells, cells0) && Shows(cells0, batch) && batch == RestBatch(cells0, heirs, demoted, k)
      {
        assert demoted[k] in demoted;
        ShownActive(cells0, heirs, demoted, k);
        batch := RestCell(cells0, batch, demoted[k], heirs);
      }
    }

    /** The pointer a woken cell gets: the inherited one, or the replacement of the rested cell it points at. */
    method NextOfWoken(from: int, replacement: map<int, int>) returns (next: int)
      ensures next == Redirected(cells, from, replacement)
    {
      next := InheritedNext(cells, from);
      if next != 0 && next in replacement {
        next := replacement[next];
      }
    }

    /** Wakes row p in the place of row f. */
    method WakeCell(ghost cells0: seq<Cell>, batch0: seq<Update>, ghost demoted: seq<int>, pair: (int, int), replacement: map<int, int>,
                    now: int) returns (batch: seq<Update>)
      requires UniqueSlots(cells0) && SameSlots(cells, cells0) && Shows(cells0, batch0) && 0 <= pair.0 < |cells0|
      requires Redirected(cells, pair.1, replacement) == WokenNext(cells0, demoted, pair.1, replacement, cached)
      modifies this`cells
      ensures SameSlots(cells, cells0) && Shows(cells0, batch)
      ensures batch == batch0 + [WakeUpdate(cells0, demoted, pair, replacement, cached, now)]
    {
      var (p, f) := pair;
      var next := NextOfWoken(f, replacement);
      batch := Record(cells0, batch0,
        NoFields.(slot := cells[p].slot, status := Some(Active), next := Some(next), fileCount := Some(0), started := Some(now),
                  demotedTo := Some(0)));
    }

    /** The batch so far: the rested rows and the first k rows woken; the list shows it. */
    ghost predicate WokeUpTo(cells0: seq<Cell>, rest: seq<Update>, batch: seq<Update>, plan: Plan, replacement: map<int, int>, now: int,
                             k: nat)
      requires k <= |plan.promoted|
      reads this
    {
      && SameSlots(cells, cells0) && Shows(cells0, batch)
      && batch == rest + WakeBatch(cells0, plan.demoted, plan.promoted, replacement, cached, now, k)
    }

    /** The k-th wake: the list shows what the pointer is inherited from. */
    method WakeNext(ghost cells0: seq<Cell>, ghost rest: seq<Update>, batch0: seq<Update>, plan: Plan, k: nat,
                    replacement: map<int, int>, ghost heirs: map<string, int>, now: int) returns (batch: seq<Update>)
      requires UniqueSlots(cells0) && Decided(cells0, plan) && k < |plan.promoted|
      requires rest == RestBatch(cells0, heirs, plan.demoted, |plan.demoted|)
      requires WokeUpTo(cells0, rest, batch0, plan, replacement, now, k)
      modifies this`cells
      ensures WokeUpTo(cells0, rest, batch, plan, replacement, now, k + 1)
    {
      assert plan.promoted[k] in plan.promoted;
      ShownNext(cells0, cells, heirs, plan, replacement, cached, now, k, plan.promoted[k].1);
      AppendLast(rest, WakeBatch(cells0, plan.demoted, plan.promoted, replacement, cached, now, k),
        WakeUpdate(cells0, plan.demoted, plan.promoted[k], replacement, cached, now));
      batch := WakeCell(cells0, batch0, plan.demoted, plan.promoted[k], replacement, now);
    }

    method WakeCells(ghost cells0: seq<Cell>, batch0: seq<Update>, plan: Plan, replacement: map<int, int>,
                     ghost heirs: map<string, int>, now: int) returns (batch: seq<Update>)
      requires UniqueSlots(cells0) && SameSlots(cells, cells0) && Shows(cells0, batch0) && Decided(cells0, plan)
      requires batch0 == RestBatch(cells0, heirs, plan.demoted, |plan.demoted|)
      modifies this`cells
      ensures SameSlots(cells, cells0) && Shows(cells0, batch)
      ensures batch == batch0 + WakeBatch(cells0, plan.demoted, plan.promoted, replacement, cached, now, |plan.promoted|)
    {
      assert batch0 + [] == batch0;
      batch := WakeAll(cells0, batch0, plan, replacement, heirs, now);
    }

    method WakeAll(ghost cells0: seq<Cell>, batch0: seq<Update>, plan: Plan, replacement: map<int, int>,
                   ghost heirs: map<string, int>, now: int) returns (batch: seq<Update>)
      requires UniqueSlots(cells0) && Decided(cells0, plan) && batch0 == RestBatch(cells0, heirs, plan.demoted, |plan.demoted|)
      requires WokeUpTo(cells0, batch0, batch0, plan, replacement, now, 0)
      modifies this`cells
      ensures WokeUpTo(cells0, batch0, batch, plan, replacement, now, |plan.promoted|)
    {
      batch := batch0;
      for k := 0 to |plan.promoted|
        invariant WokeUpTo(cells0, batch0, batch, plan, replacement, now, k)
      {
        batch := WakeNext(cells0, batch0, batch, plan, k, replacement, heirs, now);
      }
    }

    method CascadeCell(ghost cells0: seq<Cell>, batch0: seq<Update>, i: int) returns (batch: seq<Update>)
      requires UniqueSlots(cells0) && SameSlots(cells, cells0) && Shows(cells0, batch0) && 0 <= i < |cells0|
      modifies this`cells
      ensures SameSlots(cells, cells0) && Shows(cells0, batch) && batch == batch0 + [CascadeUpdate(cells0, i)]
    {
      batch := Record(cells0, batch0,
        NoFields.(slot := cells[i].slot, status := Some(Shadow1), fileCount := Some(0), degradeCount := Some(0), next := Some(0),
                  demotedTo := Some(0)));
    }

    method CascadeCells(ghost cells0: seq<Cell>, batch0: seq<Update>, cascades: seq<int>) returns (batch: seq<Update>)
      requires UniqueSlots(cells0) && SameSlots(cells, cells0) && Shows(cells0, batch0)
      requires forall i :: i in cascades ==> 0 <= i < |cells0|
      modifies this`cells
      ensures SameSlots(cells, cells0) && Shows(cells0, batch)
      ensures batch == batch0 + CascadeBatch(cells0, cascades, |cascades|)
    {
      batch := batch0;
      for k := 0 to |cascades|
        invariant SameSlots(cells, cells0) && Shows(cells0, batch)
        invariant batch == batch0 + CascadeBatch(cells0, cascades, k)
      {
        assert cascades[k] in cascades;
        AppendLast(batch0, CascadeBatch(cells0, cascades, k), CascadeUpdate(cells0, cascades[k]));
        batch := CascadeCell(cells0, batch, cascades[k]);
      }
    }

    method RepairCell(ghost cells0: seq<Cell>, batch0: seq<Update>, repair: (string, int), replacement: map<int, int>)
      returns (batch: seq<Update>)
      requires UniqueSlots(cells0) && SameSlots(cells, cells0) && Shows(cells0, batch0)
      modifies this`cells
      ensures SameSlots(cells, cells0) && Shows(cells0, batch)
      ensures batch == batch0 + [NoFields.(slot := repair.0, next := Some(Redirect(repair.1, replacement)))]
    {
      var (slot, next) := repair;
      if next != 0 && next in replacement {
        next := replacement[next];
      }
      batch := Record(cells0, batch0, NoFields.(slot := slot, next := Some(next)));
    }

    method RepairPredecessors(ghost cells0: seq<Cell>, batch0: seq<Update>, repairs: seq<(string, int)>, replacement: map<int, int>)
      returns (batch: seq<Update>)
      requires UniqueSlots(cells0) && SameSlots(cells, cells0) && Shows(cells0, batch0)
      modifies this`cells
      ensures SameSlots(cells, cells0) && Shows(cells0, batch)
      ensures batch == batch0 + RepairBatch(repairs, replacement, |repairs|)
    {
      batch := batch0;
      for k := 0 to |repairs|
        invariant SameSlots(cells, cells0) && Shows(cells0, batch)
        invariant batch == batch0 + RepairBatch(repairs, replacement, k)
      {
        AppendLast(batch0, RepairBatch(repairs, replacement, k),
          NoFields.(slot := repairs[k].0, next := Some(Redirect(repairs[k].1, replacement))));
        batch := RepairCell(cells0, batch, repairs[k], replacement);
      }
    }

    /** Builds the batch and applies each update to the cached list on the way, so that later reads
        of the list see earlier updates exactly when the list is the cached one. */
    method ApplyPlan(plan: Plan, repairs: seq<(string, int)>, now: int) returns (batch: seq<Update>)
      requires UniqueSlots(cells) && Decided(cells, plan) && forall i :: i in plan.cascades ==> 0 <= i < |cells|
      modifies this`cells
      ensures Shows(old(cells), batch) && batch == FirstBatch(old(cells), plan, repairs, cached, now)
    {
      ghost var cells0 := cells;
      var replacement, heirs := Replacements(cells, plan.promoted);
      batch := RestCells(cells0, plan.demoted, heirs);
      batch := WakeCells(cells0, batch, plan, replacement, heirs, now);
      batch := CascadeCells(cells0, batch, plan.cascades);
      batch := RepairPredecessors(cells0, batch, repairs, replacement);
    }

    /** Points every active cell at the next one in group order, the last at the first. */
    method RebuildRing(ok: bool) returns (ring: seq<int>)
      requires UniqueSlots(store) && SameSlots(cells, store)
      modifies this`cells, this`store
      ensures Listing(old(store), ring) && SortedByGroup(old(store), ring)
      ensures SameStatuses(store, old(store)) && SameCounters(store, old(store)) && SameSlots(cells, store)
      ensures if ok && |ring| >= 2 then RingPointers(store, ring) else store == old(store)
      ensures forall i :: 0 <= i < |store| && !IsActive(store, i) ==> store[i].next == old(store)[i].next
    {
      var rows := store;
      ring := SortByGroup(rows, ActiveIndices(rows));
      SortByGroupLists(rows);
      if |ring| < 2 {
        return;
      }
      var updates := RingUpdates(rows, ring);
      UpdateAllKeepsCounters(store, updates);
      BatchUpdateCells(updates, ok);
      RingUpToAll(rows, ring, updates);
    }

    /** One update for each active row that does not point at the next one already. */
    method RingUpdates(rows: seq<Cell>, ring: seq<int>) returns (updates: seq<Update>)
      requires UniqueSlots(rows) && SameSlots(cells, rows) && Listing(rows, ring)
      modifies this`cells
      ensures SameSlots(cells, rows) && RingUpTo(rows, ring, updates, |ring|)
      ensures forall k :: 0 <= k < |updates| ==> OnlyNext(updates[k])
    {
      var n := |ring|;
      updates := [];
      for i := 0 to n
        invariant SameSlots(cells, rows)
        invariant forall k :: 0 <= k < |updates| ==> OnlyNext(updates[k])
        invariant RingUpTo(rows, ring, updates, i)
      {
        assert ring[i] in ring;
        var c := rows[ring[i]];
        var nextChannel := ChannelOf(rows, ring[(i + 1) % n]);
        RingUpToSnoc(rows, ring, updates, i);
        if c.next != nextChannel {
          var u := NoFields.(slot := c.slot, next := Some(nextChannel));
          updates := updates + [u];
          UpdateCellInCache(u);
        }
      }
    }

    /** Clears the pointers of cells that are not active, r100 or shadow2 and that do not point at an active channel. */
    method ClearStalePointers(rows: seq<Cell>, ring: seq<int>, ok: bool)
      requires UniqueSlots(store) && SameSlots(cells, store)
      requires SameStatuses(rows, store) && forall i :: 0 <= i < |rows| && !IsActive(rows, i) ==> store[i].next == rows[i].next
      modifies this`cells, this`store
      ensures SameStatuses(store, old(store)) && SameCounters(store, old(store)) && SameSlots(cells, store)
      ensures forall i :: IsActive(store, i) ==> store[i].next == old(store)[i].next
      ensures ok ==> PointersClean(store, if |ring| >= 2 then ChannelsOf(rows, ring) else {})
      // exactly the pointers of rows that are neither in use nor shadow2 and that do not lead to an active channel are cleared
      ensures forall i :: 0 <= i < |store| ==> (store[i].next ==
        if ok && rows[i].status !in [Active, R100, Shadow2] && !(|ring| >= 2 && rows[i].next in ChannelsOf(rows, ring)) then 0
        else old(store)[i].next)
    {
      var activeChannels := if |ring| >= 2 then ChannelsOf(rows, ring) else {};
      var updates: seq<Update> := [];
      for i := 0 to |rows|
        invariant store == old(store) && SameSlots(cells, store)
        invariant forall k :: 0 <= k < |updates| ==> OnlyNext(updates[k])
        invariant forall k :: 0 <= k < |rows| ==>
          LeftPointer(store, updates, k) == if k < i && Stale(rows[k], activeChannels) then 0 else PointerOf(store, k)
      {
        if Stale(rows[i], activeChannels) {
          var u := NoFields.(slot := rows[i].slot, next := Some(0));
          LeftPointerSnoc(store, updates, u, i);
          updates := updates + [u];
          UpdateCellInCache(u);
        }
      }
      UpdateAllKeepsCounters(store, updates);
      LeftPointers(store, updates);
      BatchUpdateCells(updates, ok);
    }

    /** The first active row that reached its file count or its time, or -1. */
    method FindTrigger(active: seq<int>, now: int) returns (trigger: int)
      requires active == ActiveIndices(cells)
      ensures trigger == FirstDue(cells, filesPerSlot, timePerSlot, now)
    {
      for k := 0 to |active|
        invariant forall j :: 0 <= j < k ==> !Due(cells, active[j], filesPerSlot, timePerSlot, now)
      {
        assert active[k] in active;
        if Due(cells, active[k], filesPerSlot, timePerSlot, now) {
          forall i | IsActive(cells, i) && i < active[k] ensures !Due(cells, i, filesPerSlot, timePerSlot, now) {
            assert i in active;
          }
          return active[k];
        }
      }
      forall i | IsActive(cells, i) ensures !Due(cells, i, filesPerSlot, timePerSlot, now) {
        assert i in active;
      }
      return -1;
    }

    /** The rows to rest: the first windowSize rows of the ring order that starts at the first due row. There is a window exactly
        when a row is due and that order is long enough. */
    method ChooseWindow(now: int) returns (found: bool, window: seq<int>)
      ensures found <==> HasWindow(cells, windowSize, filesPerSlot, timePerSlot, now)
      ensures found ==> window == WindowOf(cells, windowSize, filesPerSlot, timePerSlot, now)
      ensures found ==> WindowFor(cells, window, windowSize, filesPerSlot, timePerSlot, now)
      ensures NoneReached(cells, filesPerSlot, timePerSlot, now) ==> !found
      ensures forall i: nat :: ReachedFirst(cells, filesPerSlot, timePerSlot, now, i) ==>
        (found <==> windowSize <= |RingOrderOf(cells, i)|) && (found ==> window == RingOrderOf(cells, i)[..windowSize])
    {
      WindowFromReached(cells, windowSize, filesPerSlot, timePerSlot, now);
      var active := ActiveIndices(cells);
      ActiveIndicesListing(cells);
      if active == [] {
        return false, [];
      }
      var trigger := FindTrigger(active, now);
      if trigger == -1 {
        return false, [];
      }
      var ordered := RingOrder(cells, active, trigger);
      if |ordered| < windowSize {
        return false, [];
      }
      window := ordered[..windowSize];
      RingOrderFacts(cells, trigger);
      PrefixFollowsRing(cells, ordered, |WalkFrom(cells, trigger, {})|, windowSize);
      assert forall i :: i in window ==> i in ordered;
      return true, window;
    }

    /** Rebuilds the ring and clears stale pointers after the statuses are settled. */
    method FinishRing(ok2: bool, ok3: bool)
      requires UniqueSlots(store) && SameSlots(cells, store)
      modifies this`cells, this`store
      ensures SameStatuses(store, old(store)) && SameCounters(store, old(store))
      ensures ok2 && |ActiveIndices(store)| >= 2 && DistinctChannels(store, ActiveIndices(store)) ==> OneRing(store)
      ensures |ActiveIndices(store)| < 2 || !ok2 ==> forall i :: IsActive(store, i) ==> store[i].next == old(store)[i].next
      ensures ok3 ==> PointersClean(store, LiveChannels(store))
    {
      var rows := store;
      var ring := RebuildRing(ok2);
      ghost var rebuilt := store;
      ClearStalePointers(rows, ring, ok3);
      SameActive(rows, store, ring);
      if ok2 && |ring| >= 2 {
        RingSurvives(rebuilt, store, ring);
      }
    }

    /** Applies a decided plan to the cached list and, when the write goes through, to the table. */
    method Rotate(window: seq<int>, plan: Plan, repairs: seq<(string, int)>, now: int, ok: bool)
      requires Fresh() && AtMostOneActive(cells)
      requires PlanFor(cells, window, plan) && forall i :: i in window ==> IsActive(cells, i)
      modifies this`cells, this`store
      ensures SameSlots(store, old(store)) && SameSlots(cells, store)
      ensures if ok then RotatedTable(old(cells), old(store), plan, repairs, old(cached), now, store) else store == old(store)
    {
      PlannedOutcome(cells, store, window, plan, repairs, cached, now);
      var batch := ApplyPlan(plan, repairs, now);
      BatchUpdateCells(batch, ok);
    }

    /** One rotation check. The flags say which of the three batch writes to the table go through. */
    method CheckRotation(now: int, ok1: bool, ok2: bool, ok3: bool)
      returns (rotated: bool, ghost window: seq<int>, ghost plan: Plan)
      requires Fresh() && AtMostOneActive(cells)
      modifies this`cells, this`store
      ensures rotated <==> MustRotate(old(cells), windowSize, filesPerSlot, timePerSlot, now)
      ensures !rotated ==> store == old(store) && cells == old(cells)
      ensures NoneReached(old(cells), filesPerSlot, timePerSlot, now) ==> !rotated
      ensures forall i: nat :: ReachedFirst(old(cells), filesPerSlot, timePerSlot, now, i) ==> (rotated <==>
        windowSize <= |RingOrderOf(old(cells), i)|
        && exists k :: 0 <= k < windowSize && Wakes(old(cells), RingOrderOf(old(cells), i)[k]).0 != -1)
      ensures rotated ==> WindowFor(old(cells), window, windowSize, filesPerSlot, timePerSlot, now)
      ensures rotated ==> window == WindowOf(old(cells), windowSize, filesPerSlot, timePerSlot, now) && plan == PlanOf(old(cells), window)
      ensures rotated ==> PlanFor(old(cells), window, plan) && plan.promoted != []
      ensures SameSlots(store, old(store)) && AtMostOneActive(store)
      ensures rotated && ok1 ==> Rotated(old(cells), old(store), plan, store) && Recounted(old(cells), old(store), plan, now, store)
      ensures rotated && !ok2 ==> PointersLeft(old(cells), old(store), plan, RepairsOfWindow(old(cells), window), old(cached), ok1, store)
      ensures rotated && !ok1 ==> SameStatuses(store, old(store)) && SameCounters(store, old(store))
      ensures rotated && ok2 && |ActiveIndices(store)| >= 2 && DistinctChannels(store, ActiveIndices(store)) ==> OneRing(store)
      ensures rotated && ok3 ==> PointersClean(store, LiveChannels(store))
    {
      WindowFromReached(cells, windowSize, filesPerSlot, timePerSlot, now);
      window, plan := [], Plan([], [], []);
      var found, toDemote := ChooseWindow(now);
      if !found {
        return false, window, plan;
      }
      var decided, repairs := MakePlan(cells, ActiveIndices(cells), toDemote);
      window, plan := toDemote, decided;
      PromotesIffWakeable(cells, window, plan);
      if decided.promoted == [] {
        return false, window, plan;
      }
      Perform(toDemote, decided, repairs, now, ok1, ok2, ok3);
      return true, window, plan;
    }

    /** Carries a decided rotation out: the batch of the plan, then the ring and the stale pointers. */
    method Perform(window: seq<int>, plan: Plan, repairs: seq<(string, int)>, now: int, ok1: bool, ok2: bool, ok3: bool)
      requires Fresh() && AtMostOneActive(cells)
      requires PlanFor(cells, window, plan) && forall i :: i in window ==> IsActive(cells, i)
      modifies this`cells, this`store
      ensures SameSlots(store, old(store)) && AtMostOneActive(store)
      ensures if ok1 then Rotated(old(cells), old(store), plan, store) && Recounted(old(cells), old(store), plan, now, store)
              else SameStatuses(store, old(store)) && SameCounters(store, old(store))
      ensures !ok2 ==> PointersLeft(old(cells), old(store), plan, repairs, old(cached), ok1, store)
      ensures ok2 && |ActiveIndices(store)| >= 2 && DistinctChannels(store, ActiveIndices(store)) ==> OneRing(store)
      ensures ok3 ==> PointersClean(store, LiveChannels(store))
    {
      ghost var cells0, store0 := cells, store;
      Rotate(window, plan, repairs, now, ok1);
      if ok1 {
        RotationOutcome(cells0, store0, window, plan, store);
      }
      FinishRing(ok2, ok3);
    }
  }

  predicate Due(cells: seq<Cell>, i: int, filesPerSlot: int, timePerSlot: int, now: int) {
    0 <= i < |cells| &&
    (cells[i].fileCount >= filesPerSlot || (cells[i].started.Some? && now - cells[i].started.value >= timePerSlot))
  }

  /** The first active row that is due, or -1. */
  function FirstDue(cells: seq<Cell>, filesPerSlot: int, timePerSlot: int, now: int): (i: int)
    ensures i == -1 <==> forall j :: IsActive(cells, j) ==> !Due(cells, j, filesPerSlot, timePerSlot, now)
    ensures i != -1 ==> IsActive(cells, i) && Due(cells, i, filesPerSlot, timePerSlot, now)
    ensures i != -1 ==> forall j :: IsActive(cells, j) && j < i ==> !Due(cells, j, filesPerSlot, timePerSlot, now)
  {
    if cells == [] then -1
    else
      var n := |cells| - 1;
      assert forall j :: 0 <= j < n ==> cells[..n][j] == cells[j];
      assert forall j :: IsActive(cells[..n], j) <==> IsActive(cells, j) && j != n;
      var first := FirstDue(cells[..n], filesPerSlot, timePerSlot, now);
      if first != -1 then first
      else if cells[n].status == Active && Due(cells, n, filesPerSlot, timePerSlot, now) then n else -1
  }

  /** A row is due and the ring order from the first such row has windowSize rows. */
  predicate HasWindow(cells: seq<Cell>, windowSize: nat, filesPerSlot: int, timePerSlot: int, now: int) {
    var trigger := FirstDue(cells, filesPerSlot, timePerSlot, now);
    trigger != -1 && |RingOrderOf(cells, trigger)| >= windowSize
  }

  function WindowOf(cells: seq<Cell>, windowSize: nat, filesPerSlot: int, timePerSlot: int, now: int): seq<int>
    requires HasWindow(cells, windowSize, filesPerSlot, timePerSlot, now)
  {
    RingOrderOf(cells, FirstDue(cells, filesPerSlot, timePerSlot, now))[..windowSize]
  }

  /** A row of the window belongs to a group with a shadow to wake. */
  predicate Wakeable(cells: seq<Cell>, window: seq<int>) {
    exists k :: 0 <= k < |window| && Wakes(cells, window[k]).0 != -1
  }

  /** Exactly when a rotation must happen. */
  predicate MustRotate(cells: seq<Cell>, windowSize: nat, filesPerSlot: int, timePerSlot: int, now: int) {
    && HasWindow(cells, windowSize, filesPerSlot, timePerSlot, now)
    && Wakeable(cells, WindowOf(cells, windowSize, filesPerSlot, timePerSlot, now))
  }

  /** No active row has as many files or has run as long as a row may. */
  ghost predicate NoneReached(cells: seq<Cell>, filesPerSlot: int, timePerSlot: int, now: int) {
    forall i :: 0 <= i < |cells| && cells[i].status == Active ==>
      cells[i].fileCount < filesPerSlot && (cells[i].started.None? || now - cells[i].started.value < timePerSlot)
  }

  /** Row i is the first active one that has. */
  ghost predicate ReachedFirst(cells: seq<Cell>, filesPerSlot: int, timePerSlot: int, now: int, i: nat) {
    && i < |cells| && cells[i].status == Active
    && (cells[i].fileCount >= filesPerSlot || (cells[i].started.Some? && now - cells[i].started.value >= timePerSlot))
    && NoneReached(cells[..i], filesPerSlot, timePerSlot, now)
  }

  lemma NoneReachedRests(cells: seq<Cell>, windowSize: nat, filesPerSlot: int, timePerSlot: int, now: int)
    requires NoneReached(cells, filesPerSlot, timePerSlot, now)
    ensures !HasWindow(cells, windowSize, filesPerSlot, timePerSlot, now)
  {
  }

  /** From the first row that has reached a limit there is a window exactly when the ring order has windowSize rows, and a rotation
      exactly when one of these has a shadow to wake. */
  lemma ReachedFirstRotates(cells: seq<Cell>, windowSize: nat, filesPerSlot: int, timePerSlot: int, now: int, i: nat)
    requires ReachedFirst(cells, filesPerSlot, timePerSlot, now, i)
    ensures var order := RingOrderOf(cells, i);
      && order != [] && order[0] == i
      && (HasWindow(cells, windowSize, filesPerSlot, timePerSlot, now) <==> windowSize <= |order|)
      && (windowSize <= |order| ==> WindowOf(cells, windowSize, filesPerSlot, timePerSlot, now) == order[..windowSize])
      && (MustRotate(cells, windowSize, filesPerSlot, timePerSlot, now) <==>
          windowSize <= |order| && exists k :: 0 <= k < windowSize && Wakes(cells, order[k]).0 != -1)
  {
    assert IsActive(cells, i) && Due(cells, i, filesPerSlot, timePerSlot, now);
    forall j | 0 <= j < i && IsActive(cells, j) ensures !Due(cells, j, filesPerSlot, timePerSlot, now) {
      assert cells[..i][j] == cells[j];
    }
    assert FirstDue(cells, filesPerSlot, timePerSlot, now) == i;
    RingOrderFacts(cells, i);
    var order := RingOrderOf(cells, i);
    if windowSize <= |order| {
      var window := WindowOf(cells, windowSize, filesPerSlot, timePerSlot, now);
      assert forall k :: 0 <= k < windowSize ==> window[k] == order[k];
    }
  }

  lemma WindowFromReached(cells: seq<Cell>, windowSize: nat, filesPerSlot: int, timePerSlot: int, now: int)
    ensures NoneReached(cells, filesPerSlot, timePerSlot, now) ==>
      !HasWindow(cells, windowSize, filesPerSlot, timePerSlot, now) && !MustRotate(cells, windowSize, filesPerSlot, timePerSlot, now)
    ensures forall i: nat :: ReachedFirst(cells, filesPerSlot, timePerSlot, now, i) ==>
      var order := RingOrderOf(cells, i);
      && (HasWindow(cells, windowSize, filesPerSlot, timePerSlot, now) <==> windowSize <= |order|)
      && (windowSize <= |order| ==> WindowOf(cells, windowSize, filesPerSlot, timePerSlot, now) == order[..windowSize])
      && (MustRotate(cells, windowSize, filesPerSlot, timePerSlot, now) <==>
          windowSize <= |order| && exists k :: 0 <= k < windowSize && Wakes(cells, order[k]).0 != -1)
  {
    if NoneReached(cells, filesPerSlot, timePerSlot, now) {
      NoneReachedRests(cells, windowSize, filesPerSlot, timePerSlot, now);
    }
    forall i: nat | ReachedFirst(cells, filesPerSlot, timePerSlot, now, i)
      ensures var order := RingOrderOf(cells, i);
        && (HasWindow(cells, windowSize, filesPerSlot, timePerSlot, now) <==> windowSize <= |order|)
        && (windowSize <= |order| ==> WindowOf(cells, windowSize, filesPerSlot, timePerSlot, now) == order[..windowSize])
        && (MustRotate(cells, windowSize, filesPerSlot, timePerSlot, now) <==>
            windowSize <= |order| && exists k :: 0 <= k < windowSize && Wakes(cells, order[k]).0 != -1)
    {
      ReachedFirstRotates(cells, windowSize, filesPerSlot, timePerSlot, now, i);
    }
  }

  /** Either no active row has reached a limit, or there is a first that has. */
  lemma SomeReachedFirst(cells: seq<Cell>, filesPerSlot: int, timePerSlot: int, now: int)
    ensures NoneReached(cells, filesPerSlot, timePerSlot, now) <==>
      !exists i: nat :: ReachedFirst(cells, filesPerSlot, timePerSlot, now, i)
  {
    var i := FirstDue(cells, filesPerSlot, timePerSlot, now);
    if i != -1 {
      forall j | 0 <= j < i && cells[..i][j].status == Active
        ensures cells[j].fileCount < filesPerSlot && (cells[j].started.None? || now - cells[j].started.value < timePerSlot)
      {
        assert IsActive(cells, j) && !Due(cells, j, filesPerSlot, timePerSlot, now);
      }
      assert ReachedFirst(cells, filesPerSlot, timePerSlot, now, i);
    } else {
      forall j | 0 <= j < |cells| && cells[j].status == Active
        ensures cells[j].fileCount < filesPerSlot && (cells[j].started.None? || now - cells[j].started.value < timePerSlot)
      {
        assert IsActive(cells, j) && !Due(cells, j, filesPerSlot, timePerSlot, now);
      }
    }
  }

  /** With distinct channels a window is missing only when no active row has its files or its time, or too few rows are active. */
  lemma WindowIffEnough(cells: seq<Cell>, windowSize: nat, filesPerSlot: int, timePerSlot: int, now: int)
    requires DistinctChannels(cells, ActiveIndices(cells))
    ensures HasWindow(cells, windowSize, filesPerSlot, timePerSlot, now) <==>
      !NoneReached(cells, filesPerSlot, timePerSlot, now) && |ActiveIndices(cells)| >= windowSize
  {
    SomeReachedFirst(cells, filesPerSlot, timePerSlot, now);
    if NoneReached(cells, filesPerSlot, timePerSlot, now) {
      NoneReachedRests(cells, windowSize, filesPerSlot, timePerSlot, now);
    } else {
      var i: nat :| ReachedFirst(cells, filesPerSlot, timePerSlot, now, i);
      ReachedFirstRotates(cells, windowSize, filesPerSlot, timePerSlot, now, i);
      RingOrderPermutes(cells, i);
    }
  }

  lemma {:induction false} UnreachedMembers(cells: seq<Cell>, rows: seq<int>, visited: set<int>)
    ensures forall i :: i in Unreached(cells, rows, visited) <==> i in rows && ChannelOf(cells, i) !in visited
    ensures NoDup(rows) ==> NoDup(Unreached(cells, rows, visited))
  {
    if rows != [] {
      var front, last := rows[..|rows| - 1], rows[|rows| - 1];
      UnreachedMembers(cells, front, visited);
      assert rows == front + [last];
    }
  }

  lemma {:induction false} WalkNoDup(cells: seq<Cell>, current: int, visited: set<int>)
    ensures NoDup(WalkFrom(cells, current, visited))
    ensures forall i :: i in WalkFrom(cells, current, visited) ==> ChannelOf(cells, i) !in visited
    decreases ChannelsOf(cells, ActiveIndices(cells)) - visited
  {
    if IsActive(cells, current) && ChannelOf(cells, current) !in visited {
      assert current in ActiveIndices(cells);
      WalkNoDup(cells, NextRow(cells, current), visited + {ChannelOf(cells, current)});
    }
  }

  lemma CarriedIsListed(cells: seq<Cell>, active: seq<int>, order: seq<int>, i: int)
    requires DistinctChannels(cells, active) && (forall j :: j in order ==> j in active)
    requires i in active && (i in order || Carried(cells, order, ChannelOf(cells, i)))
    ensures i in order
  {
  }

  /** With distinct channels the ring order lists each active row once. */
  lemma RingOrderPermutes(cells: seq<Cell>, start: int)
    requires DistinctChannels(cells, ActiveIndices(cells))
    ensures multiset(RingOrderOf(cells, start)) == multiset(ActiveIndices(cells))
    ensures |RingOrderOf(cells, start)| == |ActiveIndices(cells)|
  {
    var walk, active := WalkFrom(cells, start, {}), ActiveIndices(cells);
    var order := RingOrderOf(cells, start);
    ActiveIndicesListing(cells);
    WalkNoDup(cells, start, {});
    OrderMembers(cells, active, walk);
    forall i | i in active ensures i in order {
      CarriedIsListed(cells, active, order, i);
    }
    SameElements(order, active);
    assert |multiset(order)| == |order|;
  }

  /** windowSize different active rows that follow the ring from a due row. */
  ghost predicate WindowFor(cells: seq<Cell>, window: seq<int>, windowSize: nat, filesPerSlot: int, timePerSlot: int, now: int) {
    && |window| == windowSize && NoDup(window)
    && (forall i :: i in window ==> IsActive(cells, i))
    && (window != [] ==> Due(cells, window[0], filesPerSlot, timePerSlot, now))
    && FollowsRing(cells, window)
  }

  /** The first rows of an order that follows the ring for its first walked rows. */
  lemma PrefixFollowsRing(cells: seq<Cell>, ordered: seq<int>, walked: nat, n: nat)
    requires FollowsFor(cells, ordered, walked) && n <= |ordered|
    ensures FollowsRing(cells, ordered[..n])
  {
    var window := ordered[..n];
    if walked <= n {
      assert window[..walked] == ordered[..walked];
    } else {
      assert window[..n] == window;
      assert Chain(cells, window) by {
        forall k | 0 <= k < |window| - 1 ensures PointerOf(cells, window[k]) == ChannelOf(cells, window[k + 1]) {
          assert window[k] == ordered[..walked][k] && window[k + 1] == ordered[..walked][k + 1];
        }
      }
    }
  }

  /** The table after a plan: statuses follow the plan, channels and slots stay. */
  ghost predicate Rotated(cells: seq<Cell>, before: seq<Cell>, plan: Plan, after: seq<Cell>) {
    && SameSlots(after, before) && |cells| == |before|
    && forall i :: 0 <= i < |after| ==> after[i].status == RotatedStatus(cells, plan, i, before[i].status)
  }

  /** The counters of the table after a plan. */
  ghost predicate Recounted(cells: seq<Cell>, before: seq<Cell>, plan: Plan, now: int, after: seq<Cell>) {
    && |cells| == |before| == |after|
    && forall i :: 0 <= i < |after| ==>
      CountersOf(after[i]) == RotatedCounters(cells, plan, ReplacementBySlot(cells, plan.promoted), now, i, CountersOf(before[i]))
  }

  /** The pointer of row i after the first batch: the last repair of its slot, or what resting, waking and cascading left. */
  function RotatedPointer(cells: seq<Cell>, plan: Plan, repairs: seq<(string, int)>, cached: bool, i: nat, before: int): int
    requires i < |cells|
  {
    var replacement := ReplacementByChannel(cells, plan.promoted);
    var w := WokenBy(plan.promoted, |plan.promoted|, i);
    FixedNext(repairs, replacement, |repairs|, cells[i].slot,
      if i in plan.cascades then 0
      else if w != -1 then WokenNext(cells, plan.demoted, plan.promoted[w].1, replacement, cached)
      else if i in plan.demoted then 0 else before)
  }

  /** The pointers of the table after a plan. */
  ghost predicate Repointed(cells: seq<Cell>, before: seq<Cell>, plan: Plan, repairs: seq<(string, int)>, cached: bool, after: seq<Cell>) {
    && |cells| == |before| == |after|
    && forall i :: 0 <= i < |after| ==> after[i].next == RotatedPointer(cells, plan, repairs, cached, i, before[i].next)
  }

  /** The table after a plan: statuses, counters and pointers. */
  ghost predicate RotatedTable(cells: seq<Cell>, before: seq<Cell>, plan: Plan, repairs: seq<(string, int)>, cached: bool, now: int,
                               after: seq<Cell>) {
    && Rotated(cells, before, plan, after) && Recounted(cells, before, plan, now, after)
    && Repointed(cells, before, plan, repairs, cached, after)
  }

  /** Without a rebuilt ring the active rows keep the pointers of the first batch, or their own when that was not written. */
  ghost predicate PointersLeft(cells: seq<Cell>, before: seq<Cell>, plan: Plan, repairs: seq<(string, int)>, cached: bool, written: bool,
                               after: seq<Cell>) {
    && |cells| == |before| == |after|
    && forall i :: IsActive(after, i) ==>
      after[i].next == if written then RotatedPointer(cells, plan, repairs, cached, i, before[i].next) else before[i].next
  }

  lemma WokenIffPromoted(plan: Plan, i: int)
    ensures Promotes(plan, i) <==> WokenBy(plan.promoted, |plan.promoted|, i) != -1
  {
    var w := WokenBy(plan.promoted, |plan.promoted|, i);
    assert w != -1 ==> plan.promoted[w].0 == i;
  }

  lemma FirstRowStatus(cells: seq<Cell>, plan: Plan, repairs: seq<(string, int)>, cached: bool, now: int, i: nat, c: Cell)
    requires Decided(cells, plan) && i < |cells| && c.slot == cells[i].slot
    ensures FirstRow(cells, plan, repairs, cached, now, i, c).status == RotatedStatus(cells, plan, i, c.status)
  {
    WokenIffPromoted(plan, i);
    assert i in plan.demoted ==> cells[i].status == Active;
  }

  lemma FirstRowCounters(cells: seq<Cell>, plan: Plan, repairs: seq<(string, int)>, cached: bool, now: int, i: nat, c: Cell)
    requires i < |cells| && c.slot == cells[i].slot
    ensures CountersOf(FirstRow(cells, plan, repairs, cached, now, i, c)) ==
      RotatedCounters(cells, plan, ReplacementBySlot(cells, plan.promoted), now, i, CountersOf(c))
  {
    WokenIffPromoted(plan, i);
  }

  lemma FirstRowPointer(cells: seq<Cell>, plan: Plan, repairs: seq<(string, int)>, cached: bool, now: int, i: nat, c: Cell)
    requires i < |cells| && c.slot == cells[i].slot
    ensures FirstRow(cells, plan, repairs, cached, now, i, c).next == RotatedPointer(cells, plan, repairs, cached, i, c.next)
  {
  }

  /** Applied to the table, the batch gives every row the status, the counters and the pointer of the plan. */
  lemma BatchOutcome(cells: seq<Cell>, before: seq<Cell>, plan: Plan, repairs: seq<(string, int)>, cached: bool, now: int)
    requires UniqueSlots(cells) && SameSlots(before, cells) && Decided(cells, plan)
    requires forall i :: i in plan.cascades ==> 0 <= i < |cells|
    ensures RotatedTable(cells, before, plan, repairs, cached, now, UpdateAll(before, FirstBatch(cells, plan, repairs, cached, now)))
  {
    var batch := FirstBatch(cells, plan, repairs, cached, now);
    var after := UpdateAll(before, batch);
    forall i | 0 <= i < |after|
      ensures after[i] == FirstRow(cells, plan, repairs, cached, now, i, before[i])
    {
      UpdateAllRow(before, batch, i);
      FirstBatchRow(cells, plan, repairs, cached, now, i, before[i]);
    }
    forall i | 0 <= i < |after|
      ensures after[i].status == RotatedStatus(cells, plan, i, before[i].status)
      ensures CountersOf(after[i]) ==
        RotatedCounters(cells, plan, ReplacementBySlot(cells, plan.promoted), now, i, CountersOf(before[i]))
      ensures after[i].next == RotatedPointer(cells, plan, repairs, cached, i, before[i].next)
    {
      FirstRowStatus(cells, plan, repairs, cached, now, i, before[i]);
      FirstRowCounters(cells, plan, repairs, cached, now, i, before[i]);
      FirstRowPointer(cells, plan, repairs, cached, now, i, before[i]);
    }
  }

  lemma PlannedOutcome(cells: seq<Cell>, before: seq<Cell>, window: seq<int>, plan: Plan, repairs: seq<(string, int)>, cached: bool,
                       now: int)
    requires UniqueSlots(before) && SameSlots(cells, before)
    requires PlanFor(cells, window, plan) && forall i :: i in window ==> IsActive(cells, i)
    ensures UniqueSlots(cells) && Decided(cells, plan) && forall i :: i in plan.cascades ==> 0 <= i < |cells|
    ensures RotatedTable(cells, before, plan, repairs, cached, now, UpdateAll(before, FirstBatch(cells, plan, repairs, cached, now)))
  {
    PlanIsDecided(cells, window, plan);
    BatchOutcome(cells, before, plan, repairs, cached, now);
  }

  /** The pointers of the active cells make their channels one single cycle. */
  ghost predicate OneRing(cells: seq<Cell>) {
    SingleCycle(ch => NextOf(cells, ch), ChannelsOf(cells, ActiveIndices(cells)))
  }

  lemma ActiveIndicesListing(cells: seq<Cell>)
    ensures Listing(cells, ActiveIndices(cells))
  {
  }

  lemma PlanInRange(cells: seq<Cell>, window: seq<int>, plan: Plan)
    requires PlanFor(cells, window, plan)
    ensures forall p :: p in plan.promoted ==> InGroupOf(cells, p.0, p.1) && cells[p.0].status == Shadow1
    ensures forall i :: i in plan.cascades ==> 0 <= i < |cells| && cells[i].status == Shadow2
    ensures forall i :: i in plan.cascades ==> exists f :: f in plan.demoted && InGroupOf(cells, i, f)
  {
    forall i | i in plan.cascades
      ensures 0 <= i < |cells| && cells[i].status == Shadow2
      ensures exists f :: f in plan.demoted && InGroupOf(cells, i, f)
    {
      var f :| f in plan.demoted && Wakes(cells, f).1 == i;
      assert InGroupOf(cells, i, f);
    }
  }

  /** Rows i and f are slots of the same group. */
  predicate InGroupOf(cells: seq<Cell>, i: int, f: int) {
    0 <= i < |cells| && 0 <= f < |cells| && GroupKey(cells[f].slot).Some? && GroupKey(cells[i].slot) == GroupKey(cells[f].slot)
  }

  // ---- what a rotation guarantees ----

  /** A rotation keeps at most one active cell per group; a rested group that had a shadow1 is left
      with exactly that cell active and one that had none is left without an active cell; every row
      outside the rested groups keeps its status. The table may know more lost cells than the list. */
  lemma RotationOutcome(cells: seq<Cell>, before: seq<Cell>, window: seq<int>, plan: Plan, after: seq<Cell>)
    requires SameSlots(cells, before) && AtMostOneActive(cells) && forall i :: IsActive(before, i) ==> IsActive(cells, i)
    requires PlanFor(cells, window, plan) && forall i :: i in window ==> IsActive(cells, i)
    requires Rotated(cells, before, plan, after)
    ensures AtMostOneActive(after)
    ensures forall f, i :: f in plan.demoted && InGroupOf(cells, i, f) ==> (IsActive(after, i) <==> i == Wakes(cells, f).0)
    ensures forall i :: 0 <= i < |after| && (forall f :: f in plan.demoted ==> !InGroupOf(cells, i, f)) ==>
        after[i].status == before[i].status
  {
    PlanInRange(cells, window, plan);
    forall f, i | f in plan.demoted && InGroupOf(cells, i, f)
      ensures IsActive(after, i) <==> i == Wakes(cells, f).0
    {
      OnlyWokenActive(cells, before, window, plan, after, f, i);
    }
    forall i | 0 <= i < |after| && (forall f :: f in plan.demoted ==> !InGroupOf(cells, i, f))
      ensures after[i].status == before[i].status
    {
      assert i in plan.demoted ==> InGroupOf(cells, i, i);
      assert forall k :: 0 <= k < |plan.promoted| ==> plan.promoted[k] in plan.promoted;
      assert !Promotes(plan, i);
    }
    forall i, j | IsActive(after, i) && IsActive(after, j) && i != j
      ensures GroupKey(after[i].slot) == None || GroupKey(after[i].slot) != GroupKey(after[j].slot)
    {
      if f :| f in plan.demoted && InGroupOf(cells, i, f) {
        assert InGroupOf(cells, j, f) ==> j == Wakes(cells, f).0;
      } else if f :| f in plan.demoted && InGroupOf(cells, j, f) {
        assert !InGroupOf(cells, i, f);
      } else {
        assert IsActive(before, i) && IsActive(before, j);
      }
    }
  }

  /** The heir of a rested slot is the channel of the row woken for it. */
  lemma {:induction false} HeirOf(cells: seq<Cell>, promoted: seq<(int, int)>, pair: (int, int))
    requires UniqueSlots(cells) && pair in promoted
    requires forall q :: q in promoted ==> 0 <= q.1 < |cells| && q.0 == Wakes(cells, q.1).0
    ensures var slot := SlotOf(cells, pair.1);
      slot in ReplacementBySlot(cells, promoted) && ReplacementBySlot(cells, promoted)[slot] == ChannelOf(cells, pair.0)
  {
    var front, last := promoted[..|promoted| - 1], promoted[|promoted| - 1];
    assert promoted == front + [last];
    if SlotOf(cells, last.1) == SlotOf(cells, pair.1) {
      assert last.1 == pair.1;
    } else {
      HeirOf(cells, front, pair);
    }
  }

  /** After a rotation a woken row counts its files and its time from zero, so it is not due at once, and the row it
      replaces names the woken row's channel. */
  lemma RotationCounters(cells: seq<Cell>, before: seq<Cell>, window: seq<int>, plan: Plan, now: int, after: seq<Cell>, k: nat)
    requires UniqueSlots(cells) && PlanFor(cells, window, plan) && forall i :: i in window ==> IsActive(cells, i)
    requires Recounted(cells, before, plan, now, after) && k < |plan.promoted|
    ensures var (p, f) := plan.promoted[k];
      && 0 <= p < |after| && 0 <= f < |after|
      && after[p].fileCount == 0 && after[p].started == Some(now) && after[p].demotedTo == 0
      && after[f].fileCount == 0 && after[f].demotedTo == cells[p].channel
    ensures forall filesPerSlot, timePerSlot :: filesPerSlot > 0 && timePerSlot > 0 ==> !Due(after, plan.promoted[k].0,
        filesPerSlot, timePerSlot, now)
  {
    var (p, f) := plan.promoted[k];
    assert plan.promoted[k] in plan.promoted;
    PlanInRange(cells, window, plan);
    assert cells[p].status == Shadow1 && cells[f].status == Active;
    assert Promotes(plan, p);
    NotWoken(cells, window, plan, f);
    HeirOf(cells, plan.promoted, (p, f));
  }

  /** After a rotation, row by role: a rested row is a shadow1 without files, a woken one active with no files and a new start, a
      cascaded one a clean shadow1; every other row keeps its status and its counters. */
  lemma RolesInFields(cells: seq<Cell>, before: seq<Cell>, window: seq<int>, plan: Plan, now: int, after: seq<Cell>, i: nat)
    requires UniqueSlots(cells) && PlanFor(cells, window, plan) && forall f :: f in window ==> IsActive(cells, f)
    requires Rotated(cells, before, plan, after) && Recounted(cells, before, plan, now, after) && i < |cells|
    ensures var c, c' := before[i], after[i];
      && (i in plan.demoted ==> c'.status == Shadow1 && c'.fileCount == 0 && c'.started == c.started && c'.degradeCount == c.degradeCount)
      && (Promotes(plan, i) ==> (
          && c'.status == Active && c'.fileCount == 0 && c'.started == Some(now) && c'.demotedTo == 0
          && c'.degradeCount == c.degradeCount))
      && (i in plan.cascades ==> (
          && c'.status == Shadow1 && c'.fileCount == 0 && c'.started == c.started && c'.degradeCount == 0 && c'.demotedTo == 0))
      && (i !in plan.demoted && !Promotes(plan, i) && i !in plan.cascades ==> (
          && c'.status == c.status && c'.fileCount == c.fileCount && c'.started == c.started && c'.degradeCount == c.degradeCount
          && c'.demotedTo == c.demotedTo))
  {
    PlanInRange(cells, window, plan);
    if i in plan.demoted {
      NotWoken(cells, window, plan, i);
      assert cells[i].status == Active;
    }
    if Promotes(plan, i) {
      WokenIsShadow(cells, window, plan, i);
    }
  }

  lemma WokenIsShadow(cells: seq<Cell>, window: seq<int>, plan: Plan, i: int)
    requires PlanFor(cells, window, plan) && Promotes(plan, i)
    ensures 0 <= i < |cells| && cells[i].status == Shadow1
  {
    PlanInRange(cells, window, plan);
    var k :| 0 <= k < |plan.promoted| && plan.promoted[k].0 == i;
    assert plan.promoted[k] in plan.promoted;
  }

  /** A rested row is neither woken nor cascaded by the same plan, and a woken row is not cascaded. */
  lemma NotWoken(cells: seq<Cell>, window: seq<int>, plan: Plan, f: int)
    requires PlanFor(cells, window, plan) && forall i :: i in window ==> IsActive(cells, i)
    requires f in plan.demoted
    ensures !Promotes(plan, f) && f !in plan.cascades
    ensures forall i :: i in plan.cascades ==> !Promotes(plan, i)
  {
    PlanInRange(cells, window, plan);
    forall i | Promotes(plan, i) ensures 0 <= i < |cells| && cells[i].status == Shadow1 {
      var j :| 0 <= j < |plan.promoted| && plan.promoted[j].0 == i;
      assert plan.promoted[j] in plan.promoted;
    }
  }

  lemma OnlyWokenActive(cells: seq<Cell>, before: seq<Cell>, window: seq<int>, plan: Plan, after: seq<Cell>, f: int, i: int)
    requires SameSlots(cells, before) && AtMostOneActive(cells) && forall i :: IsActive(before, i) ==> IsActive(cells, i)
    requires PlanFor(cells, window, plan) && forall i :: i in window ==> IsActive(cells, i)
    requires Rotated(cells, before, plan, after)
    requires f in plan.demoted && InGroupOf(cells, i, f)
    ensures IsActive(after, i) <==> i == Wakes(cells, f).0
  {
    PlanInRange(cells, window, plan);
    assert IsActive(cells, f);
    if Promotes(plan, i) {
      PromotedFor(cells, window, plan, f, i);
    }
    if i == Wakes(cells, f).0 {
      assert (i, f) in plan.promoted;
      var k :| 0 <= k < |plan.promoted| && plan.promoted[k] == (i, f);
      assert Promotes(plan, i);
    } else if IsActive(before, i) {
      assert i == f;
    }
  }

  lemma PromotedFor(cells: seq<Cell>, window: seq<int>, plan: Plan, f: int, i: int)
    requires AtMostOneActive(cells) && PlanFor(cells, window, plan) && forall i :: i in window ==> IsActive(cells, i)
    requires f in plan.demoted && InGroupOf(cells, i, f) && Promotes(plan, i)
    ensures i == Wakes(cells, f).0
  {
    PlanInRange(cells, window, plan);
    var k :| 0 <= k < |plan.promoted| && plan.promoted[k].0 == i;
    assert plan.promoted[k] in plan.promoted;
    var g := plan.promoted[k].1;
    assert IsActive(cells, f) && IsActive(cells, g) && InGroupOf(cells, i, g);
    assert g == f;
  }

  /** Channels that may be pointed at after the cleanup: those of the active cells when there are two or more. */
  function LiveChannels(cells: seq<Cell>): set<int> {
    if |ActiveIndices(cells)| >= 2 then ChannelsOf(cells, ActiveIndices(cells)) else {}
  }

  /** In fields: a row that is neither in use nor a shadow2 points nowhere or at an active channel, and with fewer than two active
      rows it points nowhere. */
  lemma CleanInFields(cells: seq<Cell>)
    ensures PointersClean(cells, LiveChannels(cells)) <==>
      forall i :: 0 <= i < |cells| && cells[i].status !in [Active, R100, Shadow2] ==>
        cells[i].next == 0 || (|ActiveIndices(cells)| >= 2 && exists j :: IsActive(cells, j) && cells[j].channel == cells[i].next)
  {
    forall i | 0 <= i < |cells|
      ensures cells[i].next in LiveChannels(cells) <==>
        |ActiveIndices(cells)| >= 2 && exists j :: IsActive(cells, j) && cells[j].channel == cells[i].next
    {
      ChannelsListed(cells, ActiveIndices(cells), cells[i].next);
    }
  }

  lemma ChannelsListed(cells: seq<Cell>, rows: seq<int>, channel: int)
    requires forall i :: i in rows ==> 0 <= i < |cells|
    ensures channel in ChannelsOf(cells, rows) <==> exists i :: i in rows && cells[i].channel == channel
  {
  }

  lemma SameActive(a: seq<Cell>, b: seq<Cell>, ring: seq<int>)
    requires SameStatuses(b, a) && Listing(a, ring)
    ensures Listing(b, ring)
    ensures |ring| == |ActiveIndices(b)| && (forall i :: i in ring <==> i in ActiveIndices(b))
    ensures ChannelsOf(a, ring) == ChannelsOf(b, ActiveIndices(b))
  {
    ActiveIndicesListing(b);
    assert forall i :: IsActive(a, i) <==> IsActive(b, i);
    SameElements(ring, ActiveIndices(b));
    assert |multiset(ring)| == |ring|;
  }

  /** A rebuilt ring is still one cycle after writes that leave statuses and the pointers of active rows alone. */
  lemma RingSurvives(rebuilt: seq<Cell>, after: seq<Cell>, ring: seq<int>)
    requires SameStatuses(after, rebuilt) && Listing(after, ring) && |ring| >= 2 && RingPointers(rebuilt, ring)
    requires forall i :: IsActive(after, i) ==> after[i].next == rebuilt[i].next
    ensures DistinctChannels(after, ActiveIndices(after)) ==> OneRing(after)
  {
    forall k | 0 <= k < |ring| ensures PointerOf(after, ring[k]) == ChannelOf(after, ring[(k + 1) % |ring|]) {
      PointerKept(rebuilt, after, ring, k);
    }
    SameActive(after, after, ring);
    if DistinctChannels(after, ActiveIndices(after)) {
      assert DistinctChannels(after, ring);
      RingPointersCycle(after, ring);
    }
  }

  lemma PointerKept(rebuilt: seq<Cell>, after: seq<Cell>, ring: seq<int>, k: nat)
    requires SameStatuses(after, rebuilt) && Listing(after, ring) && k < |ring| && RingPointers(rebuilt, ring)
    requires forall i :: IsActive(after, i) ==> after[i].next == rebuilt[i].next
    ensures PointerOf(after, ring[k]) == ChannelOf(after, ring[(k + 1) % |ring|])
  {
    var m := (k + 1) % |ring|;
    assert ring[k] in ring && ring[m] in ring;
    assert PointerOf(rebuilt, ring[k]) == ChannelOf(rebuilt, ring[m]);
  }

  /** Ring pointers over a listing of the active rows make the active channels one single cycle. */
  lemma RingPointersCycle(cells: seq<Cell>, ring: seq<int>)
    requires Listing(cells, ring) && ring != [] && DistinctChannels(cells, ring) && RingPointers(cells, ring)
    ensures OneRing(cells)
  {
    var channels := seq(|ring|, k requires 0 <= k < |ring| => ChannelOf(cells, ring[k]));
    var next := ch => NextOf(cells, ch);
    assert forall k :: 0 <= k < |ring| ==> ring[k] in ring;
    forall k | 0 <= k < |channels|
      ensures next(channels[k]) == channels[(k + 1) % |channels|]
    {
      assert IsActive(cells, ring[k]) && PointerOf(cells, ring[k]) == ChannelOf(cells, ring[(k + 1) % |ring|]);
      NextOfActive(cells, ring[k]);
    }
    assert NoDup(channels);
    RingIsSingleCycle(next, channels);
    SameActive(cells, cells, ring);
    ChannelsOfSeq(cells, ring, channels);
  }

  lemma ChannelsOfSeq(cells: seq<Cell>, rows: seq<int>, channels: seq<int>)
    requires |channels| == |rows| && forall k :: 0 <= k < |rows| ==> channels[k] == ChannelOf(cells, rows[k])
    ensures Elements(channels) == ChannelsOf(cells, rows)
  {
    forall x | x in Elements(channels)
      ensures x in ChannelsOf(cells, rows)
    {
      var k :| 0 <= k < |channels| && channels[k] == x;
      assert rows[k] in rows;
    }
    forall x | x in ChannelsOf(cells, rows)
      ensures x in Elements(channels)
    {
      var i :| i in rows && ChannelOf(cells, i) == x;
      var k :| 0 <= k < |rows| && rows[k] == i;
      assert channels[k] == x;
    }
  }

  // ---- ring rebuild ----

  ghost predicate SortedByGroup(cells: seq<Cell>, rows: seq<int>) {
    forall i, j :: 0 <= i < j < |rows| ==> GroupNumber(SlotOf(cells, rows[i])) <= GroupNumber(SlotOf(cells, rows[j]))
  }

  /** Inserts after every row with a group number that is not larger, as a stable sort does. */
  function InsertByGroup(cells: seq<Cell>, rows: seq<int>, i: int): seq<int> {
    if rows == [] || GroupNumber(SlotOf(cells, rows[|rows| - 1])) <= GroupNumber(SlotOf(cells, i)) then rows + [i]
    else InsertByGroup(cells, rows[..|rows| - 1], i) + [rows[|rows| - 1]]
  }

  function SortByGroup(cells: seq<Cell>, rows: seq<int>): seq<int> {
    if rows == [] then [] else InsertByGroup(cells, SortByGroup(cells, rows[..|rows| - 1]), rows[|rows| - 1])
  }

  lemma {:induction false} InsertByGroupElements(cells: seq<Cell>, rows: seq<int>, i: int)
    ensures forall x :: x in InsertByGroup(cells, rows, i) <==> x in rows || x == i
  {
    if rows == [] || GroupNumber(SlotOf(cells, rows[|rows| - 1])) <= GroupNumber(SlotOf(cells, i)) {
    } else {
      var front, last := rows[..|rows| - 1], rows[|rows| - 1];
      assert rows == front + [last];
      InsertByGroupElements(cells, front, i);
    }
  }

  lemma {:induction false} InsertByGroupNoDup(cells: seq<Cell>, rows: seq<int>, i: int)
    requires NoDup(rows) && i !in rows
    ensures NoDup(InsertByGroup(cells, rows, i))
  {
    if rows == [] || GroupNumber(SlotOf(cells, rows[|rows| - 1])) <= GroupNumber(SlotOf(cells, i)) {
    } else {
      var front, last := rows[..|rows| - 1], rows[|rows| - 1];
      InsertByGroupNoDup(cells, front, i);
      InsertByGroupElements(cells, front, i);
      assert last !in InsertByGroup(cells, front, i);
    }
  }

  lemma {:induction false} InsertByGroupSorts(cells: seq<Cell>, rows: seq<int>, i: int)
    requires SortedByGroup(cells, rows)
    ensures SortedByGroup(cells, InsertByGroup(cells, rows, i))
  {
    if rows == [] || GroupNumber(SlotOf(cells, rows[|rows| - 1])) <= GroupNumber(SlotOf(cells, i)) {
    } else {
      var front, last := rows[..|rows| - 1], rows[|rows| - 1];
      InsertByGroupSorts(cells, front, i);
      InsertByGroupElements(cells, front, i);
      var r := InsertByGroup(cells, front, i);
      forall k | 0 <= k < |r|
        ensures GroupNumber(SlotOf(cells, r[k])) <= GroupNumber(SlotOf(cells, last))
      {
        assert r[k] in r;
      }
    }
  }

  lemma {:induction false} SortByGroupSorts(cells: seq<Cell>, rows: seq<int>)
    requires NoDup(rows)
    ensures var r := SortByGroup(cells, rows); SortedByGroup(cells, r) && NoDup(r) && forall x :: x in r <==> x in rows
  {
    if rows != [] {
      var front, last := rows[..|rows| - 1], rows[|rows| - 1];
      assert rows == front + [last];
      SortByGroupSorts(cells, front);
      InsertByGroupSorts(cells, SortByGroup(cells, front), last);
      InsertByGroupNoDup(cells, SortByGroup(cells, front), last);
      InsertByGroupElements(cells, SortByGroup(cells, front), last);
    }
  }

  lemma SortByGroupLists(cells: seq<Cell>)
    ensures var ring := SortByGroup(cells, ActiveIndices(cells)); Listing(cells, ring) && SortedByGroup(cells, ring)
  {
    SortByGroupSorts(cells, ActiveIndices(cells));
  }

  function ChannelsOf(cells: seq<Cell>, rows: seq<int>): set<int> {
    set i | i in rows :: ChannelOf(cells, i)
  }

  /** Every listed row points at the channel of the next listed row, round the list. */
  ghost predicate RingPointers(cells: seq<Cell>, ring: seq<int>) {
    forall k :: 0 <= k < |ring| ==> PointerOf(cells, ring[k]) == ChannelOf(cells, ring[(k + 1) % |ring|])
  }

  predicate Stale(c: Cell, activeChannels: set<int>) {
    c.status != Active && c.status != R100 && c.next != 0 && c.next !in activeChannels && c.status != Shadow2
  }

  ghost predicate PointersClean(cells: seq<Cell>, activeChannels: set<int>) {
    forall i :: 0 <= i < |cells| && cells[i].status !in {Active, R100, Shadow2} ==>
      cells[i].next == 0 || cells[i].next in activeChannels
  }

  /** The pointer a batch leaves in row i of a table. */
  function LeftPointer(cells: seq<Cell>, batch: seq<Update>, i: int): int {
    PointerAfter(batch, SlotOf(cells, i), PointerOf(cells, i))
  }

  lemma LeftPointerSnoc(cells: seq<Cell>, batch: seq<Update>, u: Update, i: nat)
    requires UniqueSlots(cells) && i < |cells| && u.slot == cells[i].slot && u.next.Some?
    ensures forall k :: 0 <= k < |cells| ==>
      LeftPointer(cells, batch + [u], k) == if k == i then u.next.value else LeftPointer(cells, batch, k)
  {
    forall k | 0 <= k < |cells|
      ensures LeftPointer(cells, batch + [u], k) == if k == i then u.next.value else LeftPointer(cells, batch, k)
    {
      PointerAfterSnoc(batch, u, SlotOf(cells, k), PointerOf(cells, k));
    }
  }

  /** The batch re-points the first m rows of the ring and leaves the others alone. */
  ghost predicate RingUpTo(cells: seq<Cell>, ring: seq<int>, batch: seq<Update>, m: nat) {
    && (forall k :: 0 <= k < |ring| ==>
      LeftPointer(cells, batch, ring[k]) == if k < m then ChannelOf(cells, ring[(k + 1) % |ring|]) else PointerOf(cells, ring[k]))
    && (forall i :: 0 <= i < |cells| && i !in ring ==> LeftPointer(cells, batch, i) == PointerOf(cells, i))
  }

  lemma RingUpToSnoc(cells: seq<Cell>, ring: seq<int>, batch: seq<Update>, m: nat)
    requires UniqueSlots(cells) && Listing(cells, ring) && m < |ring|
    requires RingUpTo(cells, ring, batch, m)
    ensures PointerOf(cells, ring[m]) == ChannelOf(cells, ring[(m + 1) % |ring|]) ==> RingUpTo(cells, ring, batch, m + 1)
    ensures RingUpTo(cells, ring,
      batch + [NoFields.(slot := SlotOf(cells, ring[m]), next := Some(ChannelOf(cells, ring[(m + 1) % |ring|])))], m + 1)
  {
    var next := ChannelOf(cells, ring[(m + 1) % |ring|]);
    var longer := batch + [NoFields.(slot := SlotOf(cells, ring[m]), next := Some(next))];
    assert forall k :: 0 <= k < |ring| ==> ring[k] in ring;
    LeftPointerSnoc(cells, batch, NoFields.(slot := SlotOf(cells, ring[m]), next := Some(next)), ring[m]);
    forall k | 0 <= k < |ring|
      ensures LeftPointer(cells, longer, ring[k]) ==
        if k < m + 1 then ChannelOf(cells, ring[(k + 1) % |ring|]) else PointerOf(cells, ring[k])
    {
      assert k != m ==> ring[k] != ring[m];
    }
  }

  lemma RingUpToAll(cells: seq<Cell>, ring: seq<int>, batch: seq<Update>)
    requires Listing(cells, ring) && RingUpTo(cells, ring, batch, |ring|)
    ensures RingPointers(UpdateAll(cells, batch), ring)
    ensures forall i :: 0 <= i < |cells| && !IsActive(cells, i) ==> UpdateAll(cells, batch)[i].next == cells[i].next
  {
    var after := UpdateAll(cells, batch);
    LeftPointers(cells, batch);
    forall k | 0 <= k < |ring|
      ensures PointerOf(after, ring[k]) == ChannelOf(after, ring[(k + 1) % |ring|])
    {
      RingUpToOne(cells, ring, batch, k);
    }
  }

  lemma RingUpToOne(cells: seq<Cell>, ring: seq<int>, batch: seq<Update>, k: nat)
    requires Listing(cells, ring) && RingUpTo(cells, ring, batch, |ring|) && k < |ring|
    ensures PointerOf(UpdateAll(cells, batch), ring[k]) == ChannelOf(UpdateAll(cells, batch), ring[(k + 1) % |ring|])
  {
    var m := (k + 1) % |ring|;
    assert ring[k] in ring && ring[m] in ring;
    LeftPointers(cells, batch);
    assert LeftPointer(cells, batch, ring[k]) == ChannelOf(cells, ring[m]);
  }

  lemma LeftPointers(cells: seq<Cell>, batch: seq<Update>)
    ensures forall i :: 0 <= i < |cells| ==> UpdateAll(cells, batch)[i].next == LeftPointer(cells, batch, i)
  {
    forall i | 0 <= i < |cells|
      ensures UpdateAll(cells, batch)[i].next == LeftPointer(cells, batch, i)
    {
      UpdateAllPointer(cells, batch, i);
    }
  }

  /** The pointer a woken cell takes over: that of its group's a slot if it has one, else that of the rested cell. */
  function InheritedNext(cells: seq<Cell>, from: int): int {
    if 0 <= from < |cells| && GroupKey(cells[from].slot).Some? then
      var a := GroupOf(cells, GroupKey(cells[from].slot).value).a;
      if a != -1 && cells[a].next != 0 then cells[a].next else cells[from].next
    else PointerOf(cells, from)
  }

  function Redirected(cells: seq<Cell>, from: int, replacement: map<int, int>): int {
    var next := InheritedNext(cells, from);
    if next != 0 && next in replacement then replacement[next] else next
  }
}
