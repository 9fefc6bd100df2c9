/** The first rotation of a generated topology: every row it wakes stands for a rested a slot, so until the ring is rebuilt none of
    them has a pointer. */
module GeneratedRotation {
  import opened Ring
  import opened Text
  import opened Cells
  import opened Rotation
  import opened RotationPointers
  import opened Validator
  import opened Topology

  /** n groups of an active row, a shadow1 and a shadow2, in that order, and rows outside every group after them; the channels of
      the groups differ. */
  ghost predicate Tripled(cells: seq<Cell>, n: nat) {
    && 3 * n <= |cells| && UniqueSlots(cells) && AtMostOneActive(cells)
    && (forall i :: 0 <= i < 3 * n ==> InTriple(cells, i))
    && (forall i :: 3 * n <= i < |cells| ==> GroupKey(cells[i].slot) == None && cells[i].status != Active)
    && (forall i, j :: 0 <= i < j < 3 * n ==> cells[i].channel != cells[j].channel)
  }

  predicate InTriple(cells: seq<Cell>, i: nat)
    requires i < |cells|
  {
    && GroupKey(cells[i].slot) == Some(Decimal(i / 3 + 1)) && Position(cells[i].slot) == Some(i % 3)
    && cells[i].status == if i % 3 == 0 then Active else if i % 3 == 1 then Shadow1 else Shadow2
  }

  /** The same rows up to the counters of files and time. */
  predicate OnlyCounted(cells: seq<Cell>, table: seq<Cell>) {
    && |cells| == |table|
    && forall i :: 0 <= i < |cells| ==>
      && cells[i].slot == table[i].slot && cells[i].channel == table[i].channel
      && cells[i].status == table[i].status && cells[i].next == table[i].next
  }

  lemma LayoutTripled(accounts: seq<Account>, groups: seq<Group>, table: seq<Cell>, r100: int, fallback: seq<int>)
    requires Check(accounts, r100, fallback) == None && Layout(accounts, groups, table, r100, fallback)
    ensures Tripled(table, |groups|)
  {
    var n, part := |groups|, table[..3 * |groups|];
    GeneratedRing(accounts, groups, table, r100, fallback);
    CheckedUsable(accounts, r100, fallback);
    forall i | 0 <= i < 3 * n ensures InTriple(table, i) {
      RowSlot(groups, part, n, i);
      assert part[i] == table[i];
    }
    forall i | 3 * n <= i < |table| ensures GroupKey(table[i].slot) == None && table[i].status != Active {
      assert table[i] == table[3 * n..][i - 3 * n];
      OutsideRow(r100, fallback, i - 3 * n);
    }
    forall i, j | 0 <= i < j < 3 * n ensures table[i].channel != table[j].channel {
      RowChannel(accounts, groups, table, r100, fallback, i);
      RowChannel(accounts, groups, table, r100, fallback, j);
      ReadsDiffer(accounts, |accounts[0].channels|, i, j);
    }
  }

  lemma CountedTripled(cells: seq<Cell>, table: seq<Cell>, n: nat)
    requires Tripled(table, n) && OnlyCounted(cells, table)
    ensures Tripled(cells, n)
  {
    forall i | 0 <= i < 3 * n ensures InTriple(cells, i) {
      assert InTriple(table, i);
    }
    assert forall i :: IsActive(cells, i) <==> IsActive(table, i);
  }

  lemma TripleOf(cells: seq<Cell>, n: nat, h: nat)
    requires Tripled(cells, n) && h < n
    ensures GroupOf(cells, Decimal(h + 1)) == Triple(3 * h, 3 * h + 1, 3 * h + 2)
  {
    AtPlace(cells, n, h, 0);
    AtPlace(cells, n, h, 1);
    AtPlace(cells, n, h, 2);
  }

  lemma AtPlace(cells: seq<Cell>, n: nat, h: nat, pos: nat)
    requires Tripled(cells, n) && h < n && pos < 3
    ensures SlotAt(cells, Decimal(h + 1), pos) == 3 * h + pos
  {
    assert InTriple(cells, 3 * h + pos) && InSlot(cells, 3 * h + pos, Decimal(h + 1), pos);
    var i := SlotAt(cells, Decimal(h + 1), pos);
    assert i < 3 * n && InTriple(cells, i);
    DecimalInjective(i / 3 + 1, h + 1);
  }

  /** Every active row is an a slot whose group has its shadow1 to wake. */
  lemma ActiveRowWakes(cells: seq<Cell>, n: nat, f: int)
    requires Tripled(cells, n) && IsActive(cells, f)
    ensures Grouped(cells, f) && FirstSlot(cells, f) == f && Wakes(cells, f) == (f + 1, f + 2) && f + 2 < 3 * n
  {
    assert f < 3 * n && InTriple(cells, f);
    TripleOf(cells, n, f / 3);
    assert InTriple(cells, f + 1) && InTriple(cells, f + 2);
  }

  lemma TripledDistinct(cells: seq<Cell>, n: nat)
    requires Tripled(cells, n)
    ensures DistinctChannels(cells, ActiveIndices(cells)) && |ActiveIndices(cells)| == n
  {
    var ring := seq(n, h requires 0 <= h < n => 3 * h);
    forall i | IsActive(cells, i) ensures i in ring {
      assert i < 3 * n && InTriple(cells, i);
      assert ring[i / 3] == i;
    }
    forall h | 0 <= h < n ensures IsActive(cells, ring[h]) {
      assert InTriple(cells, 3 * h);
    }
    assert Listing(cells, ring);
    SameActive(cells, cells, ring);
  }

  /** A generated topology rotates exactly when a row is due and the window is not empty and has no more rows than there are
      groups: every group has a shadow to wake. */
  lemma MustRotateIff(cells: seq<Cell>, n: nat, windowSize: nat, filesPerSlot: int, timePerSlot: int, now: int)
    requires Tripled(cells, n)
    ensures MustRotate(cells, windowSize, filesPerSlot, timePerSlot, now) <==>
      0 < windowSize <= n && !NoneReached(cells, filesPerSlot, timePerSlot, now)
  {
    TripledDistinct(cells, n);
    WindowIffEnough(cells, windowSize, filesPerSlot, timePerSlot, now);
    if HasWindow(cells, windowSize, filesPerSlot, timePerSlot, now) && windowSize > 0 {
      var trigger := FirstDue(cells, filesPerSlot, timePerSlot, now);
      RingOrderFacts(cells, trigger);
      ActiveRowWakes(cells, n, trigger);
      assert WindowOf(cells, windowSize, filesPerSlot, timePerSlot, now)[0] == trigger;
    }
  }

  /** A row the plan wakes, and how: it takes the place of its group's a slot, which is the row rested. */
  lemma WokenForFirstSlot(cells: seq<Cell>, n: nat, window: seq<int>, plan: Plan, w: nat)
    requires Tripled(cells, n) && PlanFor(cells, window, plan) && (forall i :: i in window ==> IsActive(cells, i))
    requires w < |plan.promoted|
    ensures var (p, f) := plan.promoted[w];
      && IsActive(cells, f) && p == f + 1 < 3 * n && Grouped(cells, f) && NothingInherited(cells, plan, f, true)
      && WokenBy(plan.promoted, |plan.promoted|, p) != -1
  {
    assert plan.promoted[w] in plan.promoted;
    ActiveRowWakes(cells, n, plan.promoted[w].1);
  }

  /** The woken rows are not without a channel. */
  lemma WokenChannels(cells: seq<Cell>, n: nat, window: seq<int>, plan: Plan)
    requires Tripled(cells, n) && PlanFor(cells, window, plan) && (forall i :: i in window ==> IsActive(cells, i))
    requires forall i :: 0 <= i < 3 * n ==> cells[i].channel != 0
    ensures forall p :: p in plan.promoted ==> ChannelOf(cells, p.0) != 0
  {
    forall p | p in plan.promoted ensures ChannelOf(cells, p.0) != 0 {
      ActiveRowWakes(cells, n, p.1);
    }
  }

  /** With two groups there are two active rows after the rotation, with different channels. */
  lemma StillActive(cells: seq<Cell>, n: nat, window: seq<int>, plan: Plan, after: seq<Cell>, h: nat) returns (i: int)
    requires Tripled(cells, n) && PlanFor(cells, window, plan) && (forall i :: i in window ==> IsActive(cells, i))
    requires Rotated(cells, cells, plan, after) && h < n
    ensures IsActive(after, i) && 3 * h <= i < 3 * h + 3
  {
    RotationOutcome(cells, cells, window, plan, after);
    assert InTriple(cells, 3 * h);
    ActiveRowWakes(cells, n, 3 * h);
    if 3 * h in plan.demoted {
      i := 3 * h + 1;
      assert InTriple(cells, i) && InGroupOf(cells, i, 3 * h);
    } else {
      i := 3 * h;
      forall f | f in plan.demoted ensures !InGroupOf(cells, i, f) {
        assert InTriple(cells, f);
        DecimalInjective(f / 3 + 1, h + 1);
      }
    }
  }

  lemma AfterChannels(cells: seq<Cell>, n: nat, window: seq<int>, plan: Plan, after: seq<Cell>)
    requires Tripled(cells, n) && PlanFor(cells, window, plan) && (forall i :: i in window ==> IsActive(cells, i))
    requires Rotated(cells, cells, plan, after) && n >= 2 && forall i :: 0 <= i < 3 * n ==> cells[i].channel != 0
    ensures |ActiveIndices(after)| >= 2 && DistinctChannels(after, ActiveIndices(after))
    ensures forall i :: IsActive(after, i) ==> after[i].channel != 0
  {
    forall i | IsActive(after, i) ensures i < 3 * n {
      if i >= 3 * n {
        NeverActive(cells, n, window, plan, i);
      }
    }
    var i := StillActive(cells, n, window, plan, after, 0);
    var j := StillActive(cells, n, window, plan, after, 1);
    TwoListed(ActiveIndices(after), i, j);
  }

  /** A row outside the groups is not woken. */
  lemma NeverActive(cells: seq<Cell>, n: nat, window: seq<int>, plan: Plan, i: nat)
    requires Tripled(cells, n) && PlanFor(cells, window, plan) && (forall i :: i in window ==> IsActive(cells, i))
    requires 3 * n <= i < |cells|
    ensures RotatedStatus(cells, plan, i, cells[i].status) != Active
  {
    if Promotes(plan, i) {
      var k :| 0 <= k < |plan.promoted| && plan.promoted[k].0 == i;
      WokenForFirstSlot(cells, n, window, plan, k);
      assert false;
    }
  }

  /** The first rotation of a generated topology of two groups or more, its first batch written with the list cached and its ring not
      rebuilt: every woken row is active without a pointer, the validator reports each, and there is no ring. */
  lemma FirstRotationOpensRing(accounts: seq<Account>, groups: seq<Group>, table: seq<Cell>, r100: int, fallback: seq<int>,
                               cells: seq<Cell>, window: seq<int>, plan: Plan, after: seq<Cell>)
    requires Check(accounts, r100, fallback) == None && Layout(accounts, groups, table, r100, fallback)
    requires OnlyCounted(cells, table) && |groups| >= 2 && forall i :: 0 <= i < 3 * |groups| ==> cells[i].channel != 0
    requires PlanFor(cells, window, plan) && plan.promoted != [] && forall i :: i in window ==> IsActive(cells, i)
    requires Rotated(cells, cells, plan, after)
    requires PointersLeft(cells, cells, plan, RepairsOfWindow(cells, window), true, true, after)
    ensures !OneRing(after)
    ensures forall w :: 0 <= w < |plan.promoted| ==>
      var p := plan.promoted[w].0; IsActive(after, p) && after[p].next == 0 && OffRing(after, p)
  {
    LayoutTripled(accounts, groups, table, r100, fallback);
    CountedTripled(cells, table, |groups|);
    WokenChannels(cells, |groups|, window, plan);
    AfterChannels(cells, |groups|, window, plan, after);
    forall w | 0 <= w < |plan.promoted|
      ensures var p := plan.promoted[w].0; IsActive(after, p) && after[p].next == 0 && OffRing(after, p) && !OneRing(after)
    {
      var p := plan.promoted[w].0;
      WokenForFirstSlot(cells, |groups|, window, plan, w);
      var last := WokenBy(plan.promoted, |plan.promoted|, p);
      WokenForFirstSlot(cells, |groups|, window, plan, last);
      LostRebuildOpensRing(cells, cells, window, plan, true, after, last);
    }
    assert plan.promoted[0] in plan.promoted;
  }
}
