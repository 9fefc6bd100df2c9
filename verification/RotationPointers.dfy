/** The pointers a rotation's first batch leaves, and what they mean when the ring is not rebuilt after it. */
module RotationPointers {
  import opened Ring
  import opened Cells
  import opened Rotation
  import opened Validator

  lemma {:induction false} PointingMembers(cells: seq<Cell>, rows: seq<int>, channel: int)
    ensures forall i :: i in Pointing(cells, rows, channel) ==> i in rows
  {
    if rows != [] {
      PointingMembers(cells, rows[..|rows| - 1], channel);
      assert rows == rows[..|rows| - 1] + [rows[|rows| - 1]];
    }
  }

  /** Repairs go to active rows only. */
  lemma {:induction false} RepairsAreActive(cells: seq<Cell>, window: seq<int>)
    ensures forall r :: r in RepairsOfWindow(cells, window) ==> exists i :: IsActive(cells, i) && SlotOf(cells, i) == r.0
  {
    if window != [] {
      var front, i := window[..|window| - 1], window[|window| - 1];
      RepairsAreActive(cells, front);
      if Grouped(cells, i) && Wakes(cells, i).0 != -1 {
        var preds := Pointing(cells, ActiveIndices(cells), ChannelOf(cells, i));
        PointingMembers(cells, ActiveIndices(cells), ChannelOf(cells, i));
        RepairsForMembers(cells, preds, SlotOf(cells, i), RestedSlots(cells, window), ChannelOf(cells, Wakes(cells, i).0));
      }
    }
  }

  lemma {:induction false} NotFixed(repairs: seq<(string, int)>, replacement: map<int, int>, k: nat, slot: string, before: int)
    requires k <= |repairs| && forall r :: r in repairs ==> r.0 != slot
    ensures FixedNext(repairs, replacement, k, slot, before) == before
  {
    if k > 0 {
      assert repairs[k - 1] in repairs;
      NotFixed(repairs, replacement, k - 1, slot, before);
    }
  }

  /** The a slot of the group a rested row belongs to. */
  function FirstSlot(cells: seq<Cell>, f: int): int
    requires Grouped(cells, f)
  {
    GroupOf(cells, GroupKey(cells[f].slot).value).a
  }

  /** A woken row gets the pointer it inherits: no repair and no cascade touches it. */
  lemma WokenPointer(cells: seq<Cell>, window: seq<int>, plan: Plan, cached: bool, w: nat, before: int)
    requires UniqueSlots(cells) && PlanFor(cells, window, plan) && forall i :: i in window ==> IsActive(cells, i)
    requires w < |plan.promoted| && WokenBy(plan.promoted, |plan.promoted|, plan.promoted[w].0) == w
    requires 0 <= plan.promoted[w].0 < |cells|
    ensures var (p, f) := plan.promoted[w];
      RotatedPointer(cells, plan, RepairsOfWindow(cells, window), cached, p, before) ==
        WokenNext(cells, plan.demoted, f, ReplacementByChannel(cells, plan.promoted), cached)
  {
    var (p, f) := plan.promoted[w];
    var repairs, replacement := RepairsOfWindow(cells, window), ReplacementByChannel(cells, plan.promoted);
    PlanInRange(cells, window, plan);
    assert plan.promoted[w] in plan.promoted && Promotes(plan, p);
    NotWoken(cells, window, plan, f);
    RepairsAreActive(cells, window);
    forall r | r in repairs ensures r.0 != cells[p].slot {
      var i :| IsActive(cells, i) && SlotOf(cells, i) == r.0;
      SlotNames(cells, i, p, cells[p].slot);
    }
    NotFixed(repairs, replacement, |repairs|, cells[p].slot, WokenNext(cells, plan.demoted, f, replacement, cached));
  }

  /** What a woken row takes over: the pointer of its group's a slot when there is one that points anywhere, and otherwise that of the
      row it replaces. */
  lemma InheritedInFields(cells: seq<Cell>, f: int)
    requires Grouped(cells, f)
    ensures var a := FirstSlot(cells, f);
      InheritedNext(cells, f) == if a != -1 && cells[a].next != 0 then cells[a].next else cells[f].next
  {
  }

  // ---- the rows that pointed at a rested one ----

  /** Every repair points an active row that pointed at a rested one at the row woken for it. */
  lemma {:induction false} RepairsPoint(cells: seq<Cell>, window: seq<int>)
    ensures forall r :: r in RepairsOfWindow(cells, window) ==> Repairs(cells, window, r)
  {
    if window != [] {
      var front, i := window[..|window| - 1], window[|window| - 1];
      RepairsPoint(cells, front);
      assert window == front + [i];
      forall r | r in RepairsOfWindow(cells, front) ensures Repairs(cells, window, r) {
        var f, j :| f in front && RepairsWith(cells, f, j, r);
        assert f in window;
      }
      if Grouped(cells, i) && Wakes(cells, i).0 != -1 {
        LastRepairsPoint(cells, window);
      }
    }
  }

  ghost predicate Repairs(cells: seq<Cell>, window: seq<int>, r: (string, int)) {
    exists f, j :: f in window && RepairsWith(cells, f, j, r)
  }

  /** Row j is active, pointed at rested row f, and is to point at the row woken for it. */
  ghost predicate RepairsWith(cells: seq<Cell>, f: int, j: int, r: (string, int)) {
    && Grouped(cells, f) && Wakes(cells, f).0 != -1 && r.1 == ChannelOf(cells, Wakes(cells, f).0)
    && IsActive(cells, j) && r.0 == cells[j].slot && cells[j].next == cells[f].channel != 0
  }

  lemma LastRepairsPoint(cells: seq<Cell>, window: seq<int>)
    requires window != [] && Grouped(cells, window[|window| - 1]) && Wakes(cells, window[|window| - 1]).0 != -1
    ensures var i := window[|window| - 1];
      var preds := Pointing(cells, ActiveIndices(cells), ChannelOf(cells, i));
      forall r :: r in RepairsFor(cells, preds, SlotOf(cells, i), RestedSlots(cells, window), ChannelOf(cells, Wakes(cells, i).0)) ==>
        Repairs(cells, window, r)
  {
    var i := window[|window| - 1];
    var preds := Pointing(cells, ActiveIndices(cells), ChannelOf(cells, i));
    var next := ChannelOf(cells, Wakes(cells, i).0);
    RepairsForMembers(cells, preds, SlotOf(cells, i), RestedSlots(cells, window), next);
    PointingMembers(cells, ActiveIndices(cells), ChannelOf(cells, i));
    PointingPoint(cells, ActiveIndices(cells), ChannelOf(cells, i));
    forall r | r in RepairsFor(cells, preds, SlotOf(cells, i), RestedSlots(cells, window), next) ensures Repairs(cells, window, r) {
      var j :| j in preds && SlotOf(cells, j) == r.0;
      assert RepairsWith(cells, i, j, r);
    }
  }

  lemma {:induction false} PointingPoint(cells: seq<Cell>, rows: seq<int>, channel: int)
    ensures forall i :: i in Pointing(cells, rows, channel) <==> i in rows && channel != 0 && PointerOf(cells, i) == channel
  {
    if rows != [] {
      PointingPoint(cells, rows[..|rows| - 1], channel);
      assert rows == rows[..|rows| - 1] + [rows[|rows| - 1]];
    }
  }

  lemma {:induction false} RestedMembers(cells: seq<Cell>, window: seq<int>)
    ensures forall slot :: slot in RestedSlots(cells, window) ==> exists i :: i in window && Grouped(cells, i) && SlotOf(cells, i) == slot
  {
    if window != [] {
      RestedMembers(cells, window[..|window| - 1]);
      assert window == window[..|window| - 1] + [window[|window| - 1]];
    }
  }

  lemma LastRepairIsMade(cells: seq<Cell>, window: seq<int>, j: int)
    requires UniqueSlots(cells) && (forall i :: i in window ==> 0 <= i < |cells|) && window != [] && j !in window
    requires var f := window[|window| - 1]; RepairsWith(cells, f, j, (SlotOf(cells, j), ChannelOf(cells, Wakes(cells, f).0)))
    ensures (cells[j].slot, ChannelOf(cells, Wakes(cells, window[|window| - 1]).0)) in RepairsOfWindow(cells, window)
  {
    var i := window[|window| - 1];
    var preds, next := Pointing(cells, ActiveIndices(cells), ChannelOf(cells, i)), ChannelOf(cells, Wakes(cells, i).0);
    assert i in window;
    PointingPoint(cells, ActiveIndices(cells), ChannelOf(cells, i));
    NotRested(cells, window, j);
    RepairsForMembers(cells, preds, SlotOf(cells, i), RestedSlots(cells, window), next);
    assert j in preds && SlotOf(cells, j) == cells[j].slot;
  }

  lemma NotRested(cells: seq<Cell>, window: seq<int>, j: int)
    requires UniqueSlots(cells) && 0 <= j < |cells| && j !in window
    ensures cells[j].slot !in RestedSlots(cells, window)
    ensures forall i :: i in window && 0 <= i < |cells| ==> cells[i].slot != cells[j].slot
  {
    RestedMembers(cells, window);
  }

  /** An active row outside the window that pointed at a rested row is repaired. */
  lemma {:induction false} RepairIsMade(cells: seq<Cell>, window: seq<int>, f: int, j: int)
    requires UniqueSlots(cells) && (forall i :: i in window ==> 0 <= i < |cells|) && f in window && j !in window
    requires RepairsWith(cells, f, j, (SlotOf(cells, j), ChannelOf(cells, Wakes(cells, f).0)))
    ensures (cells[j].slot, ChannelOf(cells, Wakes(cells, f).0)) in RepairsOfWindow(cells, window)
  {
    var front, i := window[..|window| - 1], window[|window| - 1];
    assert window == front + [i];
    if f == i {
      LastRepairIsMade(cells, window, j);
    } else {
      assert forall k :: k in front ==> k in window;
      RepairIsMade(cells, front, f, j);
    }
  }

  /** The last repair of a slot decides its pointer; here they all agree. */
  lemma {:induction false} AgreedRepair(repairs: seq<(string, int)>, replacement: map<int, int>, k: nat, slot: string, to: int, before: int)
    requires k <= |repairs| && forall r :: r in repairs && r.0 == slot ==> r.1 == to
    ensures FixedNext(repairs, replacement, k, slot, before) ==
      if exists m :: 0 <= m < k && repairs[m].0 == slot then Redirect(to, replacement) else before
  {
    if k > 0 {
      AgreedRepair(repairs, replacement, k - 1, slot, to, before);
      assert repairs[k - 1] in repairs;
    }
  }

  lemma {:induction false} ReplacedChannels(cells: seq<Cell>, promoted: seq<(int, int)>)
    ensures forall ch :: ch in ReplacementByChannel(cells, promoted) <==>
      exists k :: 0 <= k < |promoted| && ChannelOf(cells, promoted[k].1) == ch
  {
    if promoted != [] {
      ReplacedChannels(cells, promoted[..|promoted| - 1]);
      assert promoted == promoted[..|promoted| - 1] + [promoted[|promoted| - 1]];
    }
  }

  /** With channels that differ, every active row that stays and pointed at a rested row points at the row woken for it. */
  lemma PredecessorFollows(cells: seq<Cell>, window: seq<int>, plan: Plan, cached: bool, w: nat, j: nat, before: int)
    requires UniqueSlots(cells) && PlanFor(cells, window, plan) && (forall i :: i in window ==> IsActive(cells, i))
    requires forall a, b :: 0 <= a < b < |cells| ==> cells[a].channel != cells[b].channel
    requires w < |plan.promoted| && IsActive(cells, j) && j !in window && cells[j].next == ChannelOf(cells, plan.promoted[w].1) != 0
    ensures RotatedPointer(cells, plan, RepairsOfWindow(cells, window), cached, j, before) == ChannelOf(cells, plan.promoted[w].0)
  {
    var (p, f) := plan.promoted[w];
    var repairs, replacement, to := RepairsOfWindow(cells, window), ReplacementByChannel(cells, plan.promoted), ChannelOf(cells, p);
    assert plan.promoted[w] in plan.promoted;
    PlanInRange(cells, window, plan);
    RepairsPoint(cells, window);
    RepairIsMade(cells, window, f, j);
    forall r | r in repairs && r.0 == cells[j].slot ensures r.1 == to {
      var g, i :| g in window && RepairsWith(cells, g, i, r);
      SlotNames(cells, i, j, cells[j].slot);
      assert g == f;
    }
    AgreedRepair(repairs, replacement, |repairs|, cells[j].slot, to, before);
    NotRedirected(cells, window, plan, p);
    StaysUntouched(cells, window, plan, cached, j, before);
  }

  lemma RestedIsActive(cells: seq<Cell>, window: seq<int>, plan: Plan, k: nat)
    requires PlanFor(cells, window, plan) && (forall i :: i in window ==> IsActive(cells, i)) && k < |plan.promoted|
    ensures IsActive(cells, plan.promoted[k].1)
  {
    assert plan.promoted[k] in plan.promoted;
  }

  /** The channel of a woken row is not one that was rested. */
  lemma NotRedirected(cells: seq<Cell>, window: seq<int>, plan: Plan, p: int)
    requires PlanFor(cells, window, plan) && (forall i :: i in window ==> IsActive(cells, i)) && Promotes(plan, p)
    requires forall a, b :: 0 <= a < b < |cells| ==> cells[a].channel != cells[b].channel
    ensures Redirect(ChannelOf(cells, p), ReplacementByChannel(cells, plan.promoted)) == ChannelOf(cells, p)
  {
    ReplacedChannels(cells, plan.promoted);
    WokenIsShadow(cells, window, plan, p);
    forall k | 0 <= k < |plan.promoted| ensures ChannelOf(cells, plan.promoted[k].1) != ChannelOf(cells, p) {
      RestedIsActive(cells, window, plan, k);
    }
  }

  lemma StaysUntouched(cells: seq<Cell>, window: seq<int>, plan: Plan, cached: bool, j: nat, before: int)
    requires PlanFor(cells, window, plan) && (forall i :: i in window ==> IsActive(cells, i)) && IsActive(cells, j) && j !in window
    ensures var repairs, replacement := RepairsOfWindow(cells, window), ReplacementByChannel(cells, plan.promoted);
      RotatedPointer(cells, plan, repairs, cached, j, before) == FixedNext(repairs, replacement, |repairs|, cells[j].slot, before)
  {
    PlanInRange(cells, window, plan);
    WokenIffPromoted(plan, j);
    if Promotes(plan, j) {
      WokenIsShadow(cells, window, plan, j);
    }
  }

  /** The group's a slot gives the woken row nothing: there is none, it points nowhere, or, in a cached list, it was rested. */
  predicate NothingInherited(cells: seq<Cell>, plan: Plan, f: int, cached: bool)
    requires Grouped(cells, f)
  {
    var a := FirstSlot(cells, f);
    (a == -1 || cells[a].next == 0 || (cached && a in plan.demoted)) && (cached || cells[f].next == 0)
  }

  lemma {:induction false} ReplacementIsWoken(cells: seq<Cell>, promoted: seq<(int, int)>)
    requires forall p :: p in promoted ==> ChannelOf(cells, p.0) != 0
    ensures forall ch :: ch in ReplacementByChannel(cells, promoted) ==> ReplacementByChannel(cells, promoted)[ch] != 0
  {
    if promoted != [] {
      var front, last := promoted[..|promoted| - 1], promoted[|promoted| - 1];
      assert promoted == front + [last];
      ReplacementIsWoken(cells, front);
    }
  }

  /** Exactly when the first batch leaves a woken row without a pointer. With a cached list the updates of rested rows have
      cleared what the woken row would inherit from the row it replaces, and from an a slot that is rested itself. */
  lemma NullPointerIff(cells: seq<Cell>, window: seq<int>, plan: Plan, cached: bool, w: nat, before: int)
    requires UniqueSlots(cells) && PlanFor(cells, window, plan) && forall i :: i in window ==> IsActive(cells, i)
    requires w < |plan.promoted| && WokenBy(plan.promoted, |plan.promoted|, plan.promoted[w].0) == w
    requires forall p :: p in plan.promoted ==> ChannelOf(cells, p.0) != 0
    ensures var (p, f) := plan.promoted[w];
      && 0 <= p < |cells| && Grouped(cells, f)
      && (RotatedPointer(cells, plan, RepairsOfWindow(cells, window), cached, p, before) == 0 <==>
          NothingInherited(cells, plan, f, cached))
  {
    var (p, f) := plan.promoted[w];
    PlanInRange(cells, window, plan);
    assert plan.promoted[w] in plan.promoted && f in plan.demoted;
    WokenPointer(cells, window, plan, cached, w, before);
    ReplacementIsWoken(cells, plan.promoted);
    var bare := WithoutPointers(cells, plan.demoted);
    SameGroups(bare, cells, GroupKey(cells[f].slot).value);
  }

  /** Two active rows with different channels: there is more than one active channel. */
  lemma TwoActiveChannels(cells: seq<Cell>, i: int, j: int)
    requires IsActive(cells, i) && IsActive(cells, j) && cells[i].channel != cells[j].channel
    requires cells[i].channel != 0 && cells[j].channel != 0
    ensures |ChannelsWith(cells, Active)| > 1
  {
    var channels, x, y := ChannelsWith(cells, Active), cells[i].channel, cells[j].channel;
    assert x in channels && y in channels - {x};
    assert |channels| == |channels - {x}| + 1;
  }

  lemma RingHasPointers(cells: seq<Cell>, p: int)
    requires OneRing(cells) && DistinctChannels(cells, ActiveIndices(cells)) && IsActive(cells, p)
    requires forall i :: IsActive(cells, i) ==> cells[i].channel != 0
    ensures cells[p].next != 0
  {
    RingPointsInside(cells, p);
    var j :| j in ActiveIndices(cells) && ChannelOf(cells, j) == cells[p].next;
    assert IsActive(cells, j);
  }

  /** When the first batch is written and the rebuild is not, a woken row that inherited nothing is active without a pointer: the
      ring is open there, and the validator reports the row. */
  lemma LostRebuildOpensRing(cells: seq<Cell>, before: seq<Cell>, window: seq<int>, plan: Plan, cached: bool, after: seq<Cell>, w: nat)
    requires UniqueSlots(cells) && PlanFor(cells, window, plan) && forall i :: i in window ==> IsActive(cells, i)
    requires w < |plan.promoted| && WokenBy(plan.promoted, |plan.promoted|, plan.promoted[w].0) == w
    requires forall p :: p in plan.promoted ==> ChannelOf(cells, p.0) != 0
    requires SameSlots(cells, before) && Rotated(cells, before, plan, after)
    requires PointersLeft(cells, before, plan, RepairsOfWindow(cells, window), cached, true, after)
    requires |ActiveIndices(after)| >= 2 && DistinctChannels(after, ActiveIndices(after))
    requires forall i :: IsActive(after, i) ==> after[i].channel != 0
    ensures var (p, f) := plan.promoted[w];
      && IsActive(after, p) && Grouped(cells, f)
      && (after[p].next == 0 <==> NothingInherited(cells, plan, f, cached))
      && (NothingInherited(cells, plan, f, cached) ==> OffRing(after, p) && !OneRing(after))
  {
    var (p, f) := plan.promoted[w];
    PlanInRange(cells, window, plan);
    assert plan.promoted[w] in plan.promoted && Promotes(plan, p);
    NotWoken(cells, window, plan, f);
    NullPointerIff(cells, window, plan, cached, w, before[p].next);
    if NothingInherited(cells, plan, f, cached) {
      var other := OtherActive(after, p);
      TwoActiveChannels(after, p, other);
      if OneRing(after) {
        RingHasPointers(after, p);
      }
    }
  }

  /** Another active row, with another channel. */
  lemma OtherActive(cells: seq<Cell>, p: int) returns (other: int)
    requires |ActiveIndices(cells)| >= 2 && DistinctChannels(cells, ActiveIndices(cells)) && IsActive(cells, p)
    ensures IsActive(cells, other) && cells[other].channel != cells[p].channel
  {
    var rows := ActiveIndices(cells);
    other := if rows[0] == p then rows[1] else rows[0];
    assert rows[0] in rows && rows[1] in rows && other in rows && p in rows;
    assert ChannelOf(cells, other) != ChannelOf(cells, p);
  }

  // ---- a rotation without its rebuild ----

  function Row(slot: string, channel: int, status: Status, next: int, fileCount: int): Cell {
    Cell(slot, channel, status, next, fileCount, None, 0, 0)
  }

  /** Two groups of an active row and its shadow, in a ring of two. */
  const TWO_GROUPS := [Row("a1", 1, Active, 2, 500), Row("s1a", 11, Shadow1, 0, 0), Row("a2", 2, Active, 1, 0),
                       Row("s2a", 12, Shadow1, 0, 0)]

  lemma TwoGroups()
    ensures UniqueSlots(TWO_GROUPS) && OneRing(TWO_GROUPS)
  {
    var ring := [0, 2];
    assert Listing(TWO_GROUPS, ring) && DistinctChannels(TWO_GROUPS, ring) && RingPointers(TWO_GROUPS, ring);
    RingPointersCycle(TWO_GROUPS, ring);
  }

  lemma SlotKeys()
    ensures GroupKey("a1") == GroupKey("s1a") == Some("1") && GroupKey("a2") != Some("1") && GroupKey("s2a") != Some("1")
    ensures Position("a1") == Some(0) && Position("s1a") == Some(1)
  {
    assert "a1"[1..] == "1" && "s1a"[1..] == "1a" && "1a"[1..] == "a" && ['1'][1..] == [];
    assert DigitRun("a") == [] && DigitRun("1a") == ['1'] + DigitRun("a") == "1";
    assert "1"[1..] == [] && DigitRun([]) == [] && DigitRun("1") == ['1'] + DigitRun([]) == "1";
    assert "a2"[1..][0] == '2' && "s2a"[1..][0] == '2';
  }

  lemma FirstGroup()
    ensures GroupKey(TWO_GROUPS[0].slot) == Some("1") && Wakes(TWO_GROUPS, 0) == (1, -1)
    ensures GroupOf(TWO_GROUPS, "1") == Triple(0, 1, -1)
  {
    SlotKeys();
    assert TWO_GROUPS[0].slot == "a1" && TWO_GROUPS[1].slot == "s1a";
    assert TWO_GROUPS[2].slot == "a2" && TWO_GROUPS[3].slot == "s2a";
    assert forall i, pos :: InSlot(TWO_GROUPS, i, "1", pos) <==> (i == 0 && pos == 0) || (i == 1 && pos == 1);
    assert InSlot(TWO_GROUPS, 0, "1", 0) && InSlot(TWO_GROUPS, 1, "1", 1);
    assert SlotAt(TWO_GROUPS, "1", 0) == 0 && SlotAt(TWO_GROUPS, "1", 1) == 1 && SlotAt(TWO_GROUPS, "1", 2) == -1;
    assert GroupOf(TWO_GROUPS, "1") == Triple(0, 1, -1);
  }

  const FIRST_PLAN := Plan([0], [(1, 0)], [])

  lemma FirstPlan()
    ensures PlanFor(TWO_GROUPS, [0], FIRST_PLAN)
  {
    FirstGroup();
  }

  lemma TwoListed(rows: seq<int>, i: int, j: int)
    requires i in rows && j in rows && i != j
    ensures |rows| >= 2
  {
    var k :| 0 <= k < |rows| && rows[k] == i;
    var m :| 0 <= m < |rows| && rows[m] == j;
    assert k != m;
  }

  /** After the plan rows 1 and 2 are the active ones. */
  lemma AfterFirstPlan(after: seq<Cell>)
    requires Rotated(TWO_GROUPS, TWO_GROUPS, FIRST_PLAN, after)
    ensures forall i :: IsActive(after, i) <==> i == 1 || i == 2
    ensures |ActiveIndices(after)| >= 2 && DistinctChannels(after, ActiveIndices(after))
  {
    assert FIRST_PLAN.promoted[0].0 == 1 && Promotes(FIRST_PLAN, 1);
    TwoListed(ActiveIndices(after), 1, 2);
  }

  /** The first row is rested and its shadow woken, with the list cached. Written without its rebuild, the batch leaves the woken row
      active without a pointer: the ring is gone. */
  lemma WokenWithoutPointer(now: int) returns (plan: Plan, after: seq<Cell>)
    ensures OneRing(TWO_GROUPS) && plan == Plan([0], [(1, 0)], []) && PlanFor(TWO_GROUPS, [0], plan)
    ensures RotatedTable(TWO_GROUPS, TWO_GROUPS, plan, RepairsOfWindow(TWO_GROUPS, [0]), true, now, after)
    ensures IsActive(after, 1) && after[1].next == 0 && OffRing(after, 1) && !OneRing(after)
  {
    plan := FIRST_PLAN;
    TwoGroups();
    FirstPlan();
    after := FirstTable(now);
    FirstLost(after);
  }

  lemma FirstTable(now: int) returns (after: seq<Cell>)
    ensures RotatedTable(TWO_GROUPS, TWO_GROUPS, FIRST_PLAN, RepairsOfWindow(TWO_GROUPS, [0]), true, now, after)
  {
    var repairs := RepairsOfWindow(TWO_GROUPS, [0]);
    TwoGroups();
    FirstPlan();
    PlanIsDecided(TWO_GROUPS, [0], FIRST_PLAN);
    BatchOutcome(TWO_GROUPS, TWO_GROUPS, FIRST_PLAN, repairs, true, now);
    after := UpdateAll(TWO_GROUPS, FirstBatch(TWO_GROUPS, FIRST_PLAN, repairs, true, now));
  }

  lemma FirstLost(after: seq<Cell>)
    requires Rotated(TWO_GROUPS, TWO_GROUPS, FIRST_PLAN, after)
    requires Repointed(TWO_GROUPS, TWO_GROUPS, FIRST_PLAN, RepairsOfWindow(TWO_GROUPS, [0]), true, after)
    ensures IsActive(after, 1) && after[1].next == 0 && OffRing(after, 1) && !OneRing(after)
  {
    AfterFirstPlan(after);
    FirstPointer(after);
    TwoActiveChannels(after, 1, 2);
    if OneRing(after) {
      RingHasPointers(after, 1);
    }
  }

  /** Waking the first shadow leaves it without a pointer. */
  lemma FirstPointer(after: seq<Cell>)
    requires Repointed(TWO_GROUPS, TWO_GROUPS, FIRST_PLAN, RepairsOfWindow(TWO_GROUPS, [0]), true, after)
    ensures |after| == 4 && after[1].next == 0
  {
    TwoGroups();
    FirstPlan();
    FirstInherited();
    NullPointerIff(TWO_GROUPS, [0], FIRST_PLAN, true, 0, TWO_GROUPS[1].next);
  }

  lemma FirstInherited()
    ensures Grouped(TWO_GROUPS, 0) && NothingInherited(TWO_GROUPS, FIRST_PLAN, 0, true)
  {
    FirstGroup();
  }
}
