/** The monitor's main loop on the table of rows: load, degrade failing groups, rotate, while other writers mark rows lost and
    batch writes may fail. */
module Monitor {
  import opened Ring
  import opened Cells
  import opened Rotation

  // ---- degrading a group ----

  /** The first active row of a group's triple, or -1. */
  function ActiveSlot(cells: seq<Cell>, t: Triple): (f: int)
    ensures f != -1 ==> IsActive(cells, f) && f in {t.a, t.s1, t.s2}
    ensures f == -1 ==> !IsActive(cells, t.a) && !IsActive(cells, t.s1) && !IsActive(cells, t.s2)
  {
    if IsActive(cells, t.a) then t.a else if IsActive(cells, t.s1) then t.s1 else if IsActive(cells, t.s2) then t.s2 else -1
  }

  /** The failed row, the row to wake in its place and the row to raise to shadow1; -1 for none. */
  datatype Failover = Failover(failed: int, promote: int, cascade: int)

  function FailoverOf(cells: seq<Cell>, key: string): Failover {
    var t := GroupOf(cells, key);
    var f := ActiveSlot(cells, t);
    if f == -1 then Failover(-1, -1, -1) else Failover(f, NextPromotable(cells, t).0, NextPromotable(cells, t).1)
  }

  /** Three different rows of one group, with the statuses a failover finds. */
  ghost predicate Sound(cells: seq<Cell>, d: Failover) {
    && IsActive(cells, d.failed)
    && (d.promote != -1 ==> HasStatus(cells, d.promote, Shadow1))
    && (d.cascade != -1 ==> HasStatus(cells, d.cascade, Shadow2) && d.promote != -1)
  }

  lemma FailoverIsSound(cells: seq<Cell>, key: string)
    ensures var d := FailoverOf(cells, key);
      d.failed != -1 ==> (
        && Sound(cells, d) && GroupKey(cells[d.failed].slot) == Some(key)
        && (d.promote != -1 ==> GroupKey(cells[d.promote].slot) == Some(key)))
  {
  }

  /** An active row that points at the failed one. */
  predicate IsPredecessor(cells: seq<Cell>, f: int, i: int) {
    IsActive(cells, i) && IsActive(cells, f) && i != f && cells[i].next != 0 && cells[i].next == cells[f].channel
  }

  /** Row i of a table after a failover decided on the list cells. */
  function DegradedRow(cells: seq<Cell>, d: Failover, i: int, c: Cell): Cell
    requires IsActive(cells, d.failed) && (d.promote != -1 ==> 0 <= d.promote < |cells|)
  {
    var count := cells[d.failed].degradeCount + 1;
    if i == d.failed then c.(status := Lost, degradeCount := count, next := 0)
    else if d.promote != -1 && i == d.promote then c.(status := Active, next := cells[d.failed].next, degradeCount := count)
    else if d.promote != -1 && IsPredecessor(cells, d.failed, i) then c.(next := cells[d.promote].channel)
    else if d.cascade != -1 && i == d.cascade then c.(status := Shadow1)
    else c
  }

  function Degraded(cells: seq<Cell>, key: string, before: seq<Cell>): (after: seq<Cell>)
    ensures SameSlots(after, before)
  {
    var d := FailoverOf(cells, key);
    if d.failed == -1 then before else seq(|before|, i requires 0 <= i < |before| => DegradedRow(cells, d, i, before[i]))
  }

  /** A degraded group is left with the woken row active, and with none when there was nothing to wake; the rows of every other
      group keep their statuses, and the failed row's predecessors point at its replacement. The table may show fewer active rows
      than the list the decision was made on. */
  lemma DegradeOutcome(cells: seq<Cell>, key: string, before: seq<Cell>)
    requires SameSlots(cells, before) && AtMostOneActive(cells) && FailoverOf(cells, key).failed != -1
    requires forall i :: IsActive(before, i) && GroupKey(before[i].slot) == Some(key) ==> IsActive(cells, i)
    ensures var d, after := FailoverOf(cells, key), Degraded(cells, key, before);
      && (forall i :: 0 <= i < |after| && GroupKey(after[i].slot) == Some(key) ==> (IsActive(after, i) <==> i == d.promote))
      && (forall i :: 0 <= i < |after| && GroupKey(after[i].slot) != Some(key) ==> after[i].status == before[i].status)
      && (d.promote != -1 ==> after[d.promote].next == cells[d.failed].next)
      && (d.promote != -1 ==> forall i :: IsPredecessor(cells, d.failed, i) ==> after[i].next == cells[d.promote].channel)
  {
    var d, after := FailoverOf(cells, key), Degraded(cells, key, before);
    FailoverIsSound(cells, key);
    forall i | 0 <= i < |after| && GroupKey(after[i].slot) == Some(key)
      ensures IsActive(after, i) <==> i == d.promote
    {
      assert IsActive(before, i) ==> IsActive(cells, i) && i == d.failed;
    }
    CascadeInGroup(cells, key);
  }

  /** A failover row by row: the failed row is lost and points nowhere, the woken row takes its pointer and its count of failures,
      the active rows that pointed at the failed channel point at the woken one, the next shadow moves up, and nothing else changes. */
  lemma FailoverInFields(cells: seq<Cell>, key: string, before: seq<Cell>)
    requires SameSlots(cells, before) && FailoverOf(cells, key).failed != -1
    ensures var d, after := FailoverOf(cells, key), Degraded(cells, key, before);
      && after[d.failed].status == Lost && after[d.failed].next == 0
      && after[d.failed].degradeCount == cells[d.failed].degradeCount + 1
      && (d.promote != -1 ==> (
          && 0 <= d.promote < |after| && after[d.promote].status == Active && after[d.promote].next == cells[d.failed].next
          && after[d.promote].degradeCount == cells[d.failed].degradeCount + 1))
      && (d.cascade != -1 ==> (
          && 0 <= d.cascade < |after| && after[d.cascade].status == Shadow1 && after[d.cascade].next == before[d.cascade].next))
      && (forall i :: 0 <= i < |after| && i != d.failed && i != d.promote && i != d.cascade ==>
            after[i] == if d.promote != -1 && cells[i].status == Active && cells[i].next == cells[d.failed].channel != 0
                        then before[i].(next := cells[d.promote].channel) else before[i])
  {
    FailoverIsSound(cells, key);
    CascadeInGroup(cells, key);
  }

  /** The row that fails over is the group's active one; what is woken is its shadow1 in the s1 slot if there is one, or else in the
      s2 slot; the s2 slot moves up when it holds a shadow2 and the s1 slot was woken. */
  lemma FailoverRows(cells: seq<Cell>, key: string)
    ensures var d, t := FailoverOf(cells, key), GroupOf(cells, key);
      && (d.failed == -1 <==> forall i :: i == t.a || i == t.s1 || i == t.s2 ==> !IsActive(cells, i))
      && (d.failed != -1 ==> (
          && IsActive(cells, d.failed) && d.failed in {t.a, t.s1, t.s2}
          && d.promote == (if HasStatus(cells, t.s1, Shadow1) then t.s1 else if HasStatus(cells, t.s2, Shadow1) then t.s2 else -1)
          && d.cascade == if HasStatus(cells, t.s1, Shadow1) && HasStatus(cells, t.s2, Shadow2) then t.s2 else -1))
  {
  }

  lemma CascadeInGroup(cells: seq<Cell>, key: string)
    ensures var d := FailoverOf(cells, key);
      d.cascade != -1 ==> 0 <= d.cascade < |cells| && GroupKey(cells[d.cascade].slot) == Some(key)
  {
  }

  // ---- the scheduler ----

  function FailUpdate(cells: seq<Cell>, d: Failover): Update
    requires IsActive(cells, d.failed)
  {
    NoFields.(slot := cells[d.failed].slot, status := Some(Lost), degradeCount := Some(cells[d.failed].degradeCount + 1),
              next := Some(0))
  }

  function PromoteUpdate(cells: seq<Cell>, d: Failover): Update
    requires IsActive(cells, d.failed) && 0 <= d.promote < |cells|
  {
    NoFields.(slot := cells[d.promote].slot, status := Some(Active), next := Some(cells[d.failed].next),
              degradeCount := Some(cells[d.failed].degradeCount + 1))
  }

  /** The predecessors of the failed row among the first n rows. */
  function Predecessors(cells: seq<Cell>, f: int, n: nat): (rows: seq<int>)
    requires n <= |cells|
    ensures forall i :: i in rows <==> IsPredecessor(cells, f, i) && i < n
  {
    if n == 0 then [] else Predecessors(cells, f, n - 1) + if IsPredecessor(cells, f, n - 1) then [n - 1] else []
  }

  function PointUpdate(cells: seq<Cell>, i: int, channel: int): Update {
    NoFields.(slot := SlotOf(cells, i), next := Some(channel))
  }

  function PointUpdates(cells: seq<Cell>, rows: seq<int>, channel: int, k: nat): seq<Update>
    requires k <= |rows|
  {
    if k == 0 then []
    else PointUpdates(cells, rows, channel, k - 1) + [PointUpdate(cells, rows[k - 1], channel)]
  }

  /** The updates of a failover, in order. */
  function DegradeBatch(cells: seq<Cell>, d: Failover): seq<Update>
    requires Sound(cells, d)
  {
    var preds := Predecessors(cells, d.failed, |cells|);
    var promoted := if d.promote == -1 then [] else
      [PromoteUpdate(cells, d)] + PointUpdates(cells, preds, cells[d.promote].channel, |preds|);
    var raised := if d.cascade == -1 then [] else [NoFields.(slot := cells[d.cascade].slot, status := Some(Shadow1))];
    [FailUpdate(cells, d)] + promoted + raised
  }

  lemma {:induction false} PointRow(cells: seq<Cell>, rows: seq<int>, channel: int, k: nat, j: nat, c: Cell)
    requires UniqueSlots(cells) && (forall i :: i in rows ==> 0 <= i < |cells|)
    requires k <= |rows| && j < |cells| && c.slot == cells[j].slot
    ensures RowAfter(PointUpdates(cells, rows, channel, k), c) == if j in rows[..k] then c.(next := channel) else c
  {
    if k > 0 {
      PointRow(cells, rows, channel, k - 1, j, c);
      PointLast(PointUpdates(cells, rows, channel, k - 1), cells, rows[k - 1], channel, c);
      FirstRows(rows, k, j);
      SlotNames(cells, rows[k - 1], j, c.slot);
    }
  }

  lemma PointLast(updates: seq<Update>, cells: seq<Cell>, i: int, channel: int, c: Cell)
    ensures RowAfter(updates + [PointUpdate(cells, i, channel)], c) ==
      if SlotOf(cells, i) == c.slot then RowAfter(updates, c).(next := channel) else RowAfter(updates, c)
  {
    RowAfterSnoc(updates, PointUpdate(cells, i, channel), c);
  }

  lemma OneUpdate(u: Update, c: Cell)
    ensures RowAfter([u], c) == if u.slot == c.slot then Apply(c, u) else c
  {
    assert [u][..0] == [] && RowAfter([], c) == c;
  }

  lemma NoUpdate(c: Cell)
    ensures RowAfter([], c) == c
  {
  }

  lemma DegradeBatchRow(cells: seq<Cell>, d: Failover, j: nat, c: Cell)
    requires UniqueSlots(cells) && Sound(cells, d) && j < |cells| && c.slot == cells[j].slot
    ensures RowAfter(DegradeBatch(cells, d), c) == DegradedRow(cells, d, j, c)
  {
    var fail := [FailUpdate(cells, d)];
    var preds := Predecessors(cells, d.failed, |cells|);
    OneUpdate(FailUpdate(cells, d), c);
    SlotNames(cells, d.failed, j, c.slot);
    var r1 := RowAfter(fail, c);
    NoUpdate(r1);
    if d.promote == -1 {
      RowAfterConcat(fail, [], c);
      RowAfterConcat(fail + [], [], c);
    } else {
      var promote := [PromoteUpdate(cells, d)];
      var point := PointUpdates(cells, preds, cells[d.promote].channel, |preds|);
      PromotedRow(cells, d, j, r1);
      var r2 := RowAfter(promote + point, r1);
      RowAfterConcat(fail, promote + point, c);
      NoUpdate(r2);
      var raised := if d.cascade == -1 then [] else [NoFields.(slot := cells[d.cascade].slot, status := Some(Shadow1))];
      RowAfterConcat(fail + (promote + point), raised, c);
      if d.cascade != -1 {
        OneUpdate(raised[0], r2);
        SlotNames(cells, d.cascade, j, c.slot);
      }
    }
  }

  lemma PromotedRow(cells: seq<Cell>, d: Failover, j: nat, c: Cell)
    requires UniqueSlots(cells) && Sound(cells, d) && d.promote != -1 && j < |cells| && c.slot == cells[j].slot
    ensures var preds := Predecessors(cells, d.failed, |cells|);
      RowAfter([PromoteUpdate(cells, d)] + PointUpdates(cells, preds, cells[d.promote].channel, |preds|), c) ==
        if j == d.promote then Apply(c, PromoteUpdate(cells, d))
        else if IsPredecessor(cells, d.failed, j) then c.(next := cells[d.promote].channel) else c
  {
    var preds := Predecessors(cells, d.failed, |cells|);
    var u := PromoteUpdate(cells, d);
    RowAfterConcat([u], PointUpdates(cells, preds, cells[d.promote].channel, |preds|), c);
    OneUpdate(u, c);
    SlotNames(cells, d.promote, j, c.slot);
    PointRow(cells, preds, cells[d.promote].channel, |preds|, j, RowAfter([u], c));
    assert preds[..|preds|] == preds;
  }

  lemma DegradeBatchTable(cells: seq<Cell>, key: string, before: seq<Cell>)
    requires UniqueSlots(cells) && SameSlots(before, cells) && FailoverOf(cells, key).failed != -1
    ensures Sound(cells, FailoverOf(cells, key))
    ensures UpdateAll(before, DegradeBatch(cells, FailoverOf(cells, key))) == Degraded(cells, key, before)
  {
    var d := FailoverOf(cells, key);
    FailoverIsSound(cells, key);
    var batch := DegradeBatch(cells, d);
    forall i | 0 <= i < |before| ensures UpdateAll(before, batch)[i] == Degraded(cells, key, before)[i] {
      UpdateAllRow(before, batch, i);
      DegradeBatchRow(cells, d, i, before[i]);
    }
  }

  lemma Regrouped(a: seq<Update>, b: seq<Update>, c: seq<Update>)
    ensures (a + b) + c == a + (b + c)
  {
  }

  class Scheduler {
    /** The run so far. */
    ghost var states: seq<Mon>
    ghost var events: seq<Event>

    ghost predicate Valid()
      reads this
    {
      IsRun(states, events)
    }

    ghost function Now(): Mon
      requires Valid()
      reads this
    {
      states[|events|]
    }

    /** The bot is in the last state of the run. */
    ghost predicate Follows(bot: MonBot)
      reads this, bot
    {
      Valid() && Holds(bot, Now())
    }

    /** Between rounds a cached list may be used. */
    ghost predicate Rested(bot: MonBot)
      reads this, bot
    {
      Valid() && InTable(bot, Now()) && (bot.cached ==> Holds(bot, Now()) && Now().use == Usable && Now().degraded == {})
    }

    ghost method Note(e: Event, after: Mon)
      requires Valid() && Links(Now(), e, after)
      modifies this
      ensures Valid() && Now() == after && events == old(events) + [e] && states[0] == old(states[0])
    {
      RunSnoc(states, events, e, after);
      states, events := states + [after], events + [e];
    }

    /** A usable list has the rows of the table. */
    lemma UsableList()
      requires Valid() && Now().use == Usable
      ensures UniqueSlots(Now().cells) && SameSlots(Now().cells, Now().store)
    {
      NowKeepsInv();
    }

    lemma NowShowsActive()
      requires Valid() && Now().use != Spent && Now().degraded == {}
      ensures UniqueSlots(Now().store) && ShowsActive(Now().cells, Now().store)
    {
      NowKeepsInv();
    }

    /** What every state of a run keeps holds of the last one. */
    lemma NowKeepsInv()
      requires Valid()
      ensures MonInv(Now())
    {
      RunIsSegment(states, events);
      RunKeepsInv(states, events, |events|);
    }

    /** Changes a row of the list in place and notes the update for the table. */
    method Change(bot: MonBot, ghost cells0: seq<Cell>, batch0: seq<Update>, i: int, u: Update) returns (batch: seq<Update>)
      requires UniqueSlots(cells0) && bot.cells == UpdateAll(cells0, batch0) && 0 <= i < |cells0| && u.slot == cells0[i].slot
      modifies bot`cells
      ensures batch == batch0 + [u] && bot.cells == UpdateAll(cells0, batch)
    {
      UpdateAllSnoc(cells0, batch0, u);
      ghost var shown := bot.cells;
      bot.cells := bot.cells[i := Apply(bot.cells[i], u)];
      batch := batch0 + [u];
      forall k | 0 <= k < |cells0| ensures bot.cells[k] == UpdateRows(shown, u)[k] {
        SlotNames(cells0, i, k, cells0[k].slot);
      }
      assert bot.cells == UpdateRows(shown, u);
    }

    method FindPredecessors(cells: seq<Cell>, f: int) returns (rows: seq<int>)
      requires IsActive(cells, f)
      ensures rows == Predecessors(cells, f, |cells|)
    {
      rows := [];
      for n := 0 to |cells|
        invariant rows == Predecessors(cells, f, n)
      {
        if cells[n].status == Active && cells[n].next != 0 && cells[n].next == cells[f].channel && n != f {
          rows := rows + [n];
        }
      }
    }

    /** Wakes the replacement and re-points the failed row's predecessors at it. */
    method Promote(bot: MonBot, ghost cells0: seq<Cell>, batch0: seq<Update>, d: Failover, preds: seq<int>, newNext: int, count: int)
      returns (batch: seq<Update>)
      requires UniqueSlots(cells0) && bot.cells == UpdateAll(cells0, batch0) && Sound(cells0, d) && d.promote != -1
      requires newNext == cells0[d.failed].next && count == cells0[d.failed].degradeCount + 1
      requires preds == Predecessors(cells0, d.failed, |cells0|)
      modifies bot`cells
      ensures bot.cells == UpdateAll(cells0, batch)
      ensures batch == batch0 + ([PromoteUpdate(cells0, d)] + PointUpdates(cells0, preds, cells0[d.promote].channel, |preds|))
    {
      var channel := bot.cells[d.promote].channel;
      var u := NoFields.(slot := bot.cells[d.promote].slot, status := Some(Active), next := Some(newNext), degradeCount := Some(count));
      assert u == PromoteUpdate(cells0, d);
      batch := Change(bot, cells0, batch0, d.promote, u);
      batch := PointAt(bot, cells0, batch, preds, channel);
      Regrouped(batch0, [u], PointUpdates(cells0, preds, channel, |preds|));
    }

    method PointAt(bot: MonBot, ghost cells0: seq<Cell>, batch0: seq<Update>, rows: seq<int>, channel: int) returns (batch: seq<Update>)
      requires UniqueSlots(cells0) && bot.cells == UpdateAll(cells0, batch0) && forall i :: i in rows ==> 0 <= i < |cells0|
      modifies bot`cells
      ensures bot.cells == UpdateAll(cells0, batch) && batch == batch0 + PointUpdates(cells0, rows, channel, |rows|)
    {
      batch := batch0;
      for k := 0 to |rows|
        invariant bot.cells == UpdateAll(cells0, batch) && batch == batch0 + PointUpdates(cells0, rows, channel, k)
      {
        assert rows[k] in rows;
        AppendLast(batch0, PointUpdates(cells0, rows, channel, k), PointUpdate(cells0, rows[k], channel));
        batch := Change(bot, cells0, batch, rows[k], NoFields.(slot := bot.cells[rows[k]].slot, next := Some(channel)));
      }
    }

    /** The failover on the list, row by row; the updates are noted for the table. */
    method ChangeList(bot: MonBot, d: Failover) returns (batch: seq<Update>)
      requires UniqueSlots(bot.cells) && Sound(bot.cells, d)
      modifies bot`cells
      ensures batch == DegradeBatch(old(bot.cells), d) && bot.cells == UpdateAll(old(bot.cells), batch)
    {
      ghost var cells0 := bot.cells;
      var preds := FindPredecessors(bot.cells, d.failed);
      var newNext, count := bot.cells[d.failed].next, bot.cells[d.failed].degradeCount + 1;
      batch := Change(bot, cells0, [], d.failed,
        NoFields.(slot := bot.cells[d.failed].slot, status := Some(Lost), degradeCount := Some(count), next := Some(0)));
      ghost var failed := batch;
      if d.promote != -1 {
        batch := Promote(bot, cells0, batch, d, preds, newNext, count);
      } else {
        assert failed + [] == batch;
      }
      ghost var promoted := batch;
      if d.cascade != -1 {
        batch := Change(bot, cells0, batch, d.cascade, NoFields.(slot := bot.cells[d.cascade].slot, status := Some(Shadow1)));
      } else {
        assert promoted + [] == batch;
      }
    }

    /** The failed row is lost, its replacement active, the replacement's successor in line a shadow1: in the list at once, in the
        table when the write goes through. */
    method DegradeGroup(bot: MonBot, ghost key: string, d: Failover, ok: bool)
      requires UniqueSlots(bot.cells) && SameSlots(bot.cells, bot.store) && d == FailoverOf(bot.cells, key) && d.failed != -1
      modifies bot`cells, bot`store
      ensures bot.cells == Degraded(old(bot.cells), key, old(bot.cells))
      ensures bot.store == if ok then Degraded(old(bot.cells), key, old(bot.store)) else old(bot.store)
    {
      DegradeBatchTable(bot.cells, key, bot.cells);
      DegradeBatchTable(bot.cells, key, bot.store);
      var batch := ChangeList(bot, d);
      bot.BatchUpdateCells(batch, ok);
    }

    /** One confirmed failure: the group fails over, unless it has no active row. */
    method FailOver(bot: MonBot, groups: map<string, Triple>, key: string, ok: bool)
      requires Follows(bot) && Now().use == Usable && key !in Now().degraded && Gathers(bot.cells, groups)
      modifies this, bot`cells, bot`store
      ensures Follows(bot) && Now() == AfterDegrade(old(Now()), key, ok) && states[0] == old(states[0])
      ensures SameSlots(bot.cells, old(bot.cells)) && Now().use == Usable && Now().degraded == old(Now().degraded) + {key}
      ensures events == old(events) + [Degrade(key, ok)]
    {
      ghost var s := Now();
      UsableList();
      if key in groups {
        var t := groups[key];
        var f := ActiveSlot(bot.cells, t);
        if f != -1 {
          var (promote, cascade) := NextPromotable(bot.cells, t);
          DegradeGroup(bot, key, Failover(f, promote, cascade), ok);
        }
      }
      Note(Degrade(key, ok), AfterDegrade(s, key, ok));
    }

    /** The degrade check: every confirmed failure in turn. */
    method RunDegradeCheck(bot: MonBot, failing: seq<(string, bool)>)
      requires Follows(bot) && Now().use == Usable && Now().degraded == {} && NoDup(Keys(failing))
      modifies this, bot`cells, bot`store
      ensures Follows(bot) && Now().use == Usable && states[0] == old(states[0])
      ensures (failing == [] ==> Now().degraded == {}) && events == old(events) + DegradeEvents(failing, |failing|)
    {
      var groups := GroupSlots(bot.cells);
      ghost var cells0, events0 := bot.cells, events;
      for n := 0 to |failing|
        invariant Follows(bot) && Now().use == Usable && Now().degraded == KeySet(failing, n) && SameSlots(cells0, bot.cells)
        invariant states[0] == old(states[0]) && events == events0 + DegradeEvents(failing, n)
      {
        KeyIsNew(failing, n, n);
        GathersLater(cells0, bot.cells, groups);
        FailOver(bot, groups, failing[n].0, failing[n].1);
      }
    }

    // ---- the list and its cache ----

    /** All rows from the table; the list is the cached one. */
    method LoadCells(bot: MonBot, ghost e: Event)
      requires Valid() && bot.store == Now().store && Links(Now(), e, Loaded(Now()))
      modifies this, bot`cells, bot`cached
      ensures Follows(bot) && Now() == Loaded(old(Now())) && states[0] == old(states[0]) && events == old(events) + [e]
      ensures bot.cells == bot.store && bot.cached
    {
      bot.cells, bot.cached := bot.store, true;
      Note(e, Loaded(Now()));
    }

    /** The list: the cached one, unless there is none or it is too old. */
    method GetCells(bot: MonBot, expired: bool)
      requires Valid() && InTable(bot, Now()) && (expired || Rested(bot))
      modifies this, bot`cells, bot`cached
      ensures Follows(bot) && Now().use == Usable && Now().degraded == {} && states[0] == old(states[0])
      ensures events == old(events) + [Get(expired)]
      ensures if expired || !old(bot.cached) then bot.cells == bot.store && bot.cached else bot.cells == old(bot.cells) && bot.cached
    {
      if expired || !bot.cached {
        LoadCells(bot, Get(expired));
      } else {
        Note(Get(expired), Now());
      }
    }

    /** The list is loaded again when the one at hand is used up. */
    method RenewCells(bot: MonBot, spent: bool)
      requires Valid() && InTable(bot, Now()) && (!spent ==> Holds(bot, Now())) && (spent <==> Now().use != Usable)
      modifies this, bot`cells, bot`cached
      ensures Follows(bot) && Now().use == Usable && (old(Now().degraded) == {} ==> Now().degraded == {})
      ensures states[0] == old(states[0]) && events == old(events) + [Renew]
      ensures if spent then bot.cells == bot.store && bot.cached else bot.cells == old(bot.cells) && bot.cached == old(bot.cached)
    {
      if spent {
        LoadCells(bot, Renew);
      } else {
        Note(Renew, Now());
      }
    }

    /** Other writers mark rows lost. */
    method OthersLose(bot: MonBot, slots: set<string>)
      requires Follows(bot)
      modifies this, bot`store
      ensures Follows(bot) && Now() == old(Now()).(store := MarkLost(old(Now()).store, slots))
      ensures states[0] == old(states[0]) && events == old(events) + [Lose(slots)]
    {
      bot.store := MarkLost(bot.store, slots);
      Note(Lose(slots), Now().(store := bot.store));
    }

    /** The watcher drops the cached list. */
    method DropCache(bot: MonBot)
      requires Follows(bot)
      modifies this, bot`cached
      ensures Follows(bot) && Now() == old(Now()).(cached := false)
      ensures states[0] == old(states[0]) && events == old(events) + [Invalidate]
    {
      bot.cached := false;
      Note(Invalidate, Now().(cached := false));
    }

    // ---- banned channels and lost rows ----

    /** UPDATE ... WHERE slot_id = ? AND status = ?, and what follows when it changes nothing. */
    method Transition(bot: MonBot, slot: string, expected: Status, change: Change, cas: Cas) returns (applied: bool)
      modifies bot`store
      ensures bot.store == Transitioned(old(bot.store), slot, expected, change, cas)
      ensures applied == Applied(old(bot.store), slot, expected, cas)
      // taken as changed when the row was found in the status expected, or the fallback was not refused
      ensures applied <==>
        || cas.fallback != Refused
        || (cas.up && exists i :: 0 <= i < |old(bot.store)| && old(bot.store)[i].slot == slot && old(bot.store)[i].status == expected)
    {
      if cas.up && Finds(bot.store, slot, expected) {
        bot.store := ChangeRow(bot.store, slot, change, expected);
        return true;
      }
      if cas.fallback.Forced? {
        bot.store := ChangeRow(bot.store, slot, change, expected);
      }
      return !cas.fallback.Refused?;
    }

    /** Changes a row of the list when it is the cached one. */
    method ChangeInCache(bot: MonBot, slot: string, change: Change, expected: Status)
      modifies bot`cells
      ensures bot.cells == if bot.cached then ChangeRow(old(bot.cells), slot, change, expected) else old(bot.cells)
    {
      if bot.cached {
        bot.cells := ChangeRow(bot.cells, slot, change, expected);
      }
    }

    /** Re-points the first row of the table that is not lost and points at the banned channel. */
    method FixPointer(bot: MonBot, from: int, to: int, fix: Fix)
      modifies bot`cells, bot`store
      ensures bot.store == if fix.Made? then PointerFixed(old(bot.store), from, to) else old(bot.store)
      ensures SameStatuses(bot.cells, old(bot.cells))
    {
      if fix.Unseen? {
        return;
      }
      var i := FirstPointing(bot.store, from);
      if i != -1 {
        var slot := bot.store[i].slot;
        if fix.Made? {
          bot.store := WithPointer(bot.store, slot, to);
        }
        if bot.cached {
          bot.cells := WithPointer(bot.cells, slot, to);
        }
      }
    }

    /** A banned channel: its row gets the channel of a spare, or is lost when there is none. Only that row of the list changes, up
        to pointers. */
    method ReplaceOrLose(bot: MonBot, row: Cell, b: Banning)
      modifies bot`cells, bot`store, bot`cached
      ensures bot.store == BanStore(old(bot.store), row, b) && bot.cached == (old(bot.cached) && b.change.NoChange?)
      ensures UniqueSlots(old(bot.store)) ==> BannedTable(old(bot.store), bot.store, row, b)
      ensures SameNames(bot.cells, old(bot.cells))
      ensures forall k :: 0 <= k < |bot.cells| && bot.cells[k].slot != row.slot ==> SameRow(bot.cells, old(bot.cells), k)
    {
      if UniqueSlots(bot.store) {
        BanInFields(bot.store, row, b);
      }
      if b.change.NoChange? {
        return;
      }
      var applied := Transition(bot, row.slot, row.status, b.change, b.cas);
      if applied {
        ChangeInCache(bot, row.slot, b.change, row.status);
        if b.change.Replacement? {
          FixPointer(bot, row.channel, b.change.channel, b.fix);
        }
      }
      bot.cached := false;
    }

    /** The rows of the heartbeat whose channels prove banned, in turn; the count says whether there was one. */
    method Heartbeat(bot: MonBot, bans: seq<Banning>) returns (count: nat)
      requires Follows(bot) && Now().use == Usable && Now().degraded == {} && NoDup(BanRows(bans))
      modifies this, bot`cells, bot`store, bot`cached
      ensures Valid() && InTable(bot, Now()) && Now().degraded == {} && (count == 0 ==> Holds(bot, Now()))
      ensures (count > 0 <==> Now().use != Usable) && states[0] == old(states[0]) && events == old(events) + BanEvents(bans, |bans|)
      // no banned row without a spare is left active, unless its update could not be made at all
      ensures forall m :: 0 <= m < |bans| && bans[m].change == Loss && (bans[m].cas.up || bans[m].cas.fallback == Forced) ==>
        !IsActive(bot.store, bans[m].row)
    {
      count := 0;
      UsableList();
      ghost var read, events0 := bot.cells, events;
      for n := 0 to |bans|
        invariant Valid() && InTable(bot, Now()) && Now().degraded == {} && Now().cells == read
        invariant if count == 0 then Now().use == Usable && bot.cells == read else Now().use == Passing
        invariant Unread(read, bot.cells, BanRows(bans), n)
        invariant NoneActive(bot.store, bans, n)
        invariant states[0] == old(states[0]) && events == events0 + BanEvents(bans, n)
      {
        var b := bans[n];
        assert BanRows(bans)[n] == b.row;
        ghost var s := Now();
        NowShowsActive();
        BanKeepsInactive(read, s.store, bans, n);
        if Beats(bot.cells, b.row) {
          ghost var shown := bot.cells;
          ReplaceOrLose(bot, bot.cells[b.row], b);
          UnreadNext(read, shown, bot.cells, BanRows(bans), n);
          SameBan(s.store, read[b.row], shown[b.row], b);
          count := count + 1;
        }
        Note(Ban(b), AfterBan(s, b));
      }
    }

    /** A row whose channel can be reached again becomes shadow2, in the list when the table took it. */
    method RecoverRow(bot: MonBot, slot: string, cas: Cas) returns (applied: bool)
      modifies bot`cells, bot`store
      ensures bot.store == Transitioned(old(bot.store), slot, Lost, Recovery, cas)
      ensures applied == Applied(old(bot.store), slot, Lost, cas) && (!applied ==> bot.cells == old(bot.cells))
      ensures |bot.store| == |old(bot.store)|
      ensures forall i :: 0 <= i < |bot.store| ==>
        if old(bot.store)[i].slot == slot && TakesEffect(old(bot.store), slot, Lost, cas)
        then Becomes(old(bot.store)[i], bot.store[i], Recovery, Lost) else bot.store[i] == old(bot.store)[i]
      ensures SameNames(bot.cells, old(bot.cells))
      ensures forall k :: 0 <= k < |bot.cells| && bot.cells[k].slot != slot ==> SameRow(bot.cells, old(bot.cells), k)
    {
      RecoveryInFields(bot.store, slot, cas);
      applied := Transition(bot, slot, Lost, Recovery, cas);
      if applied {
        ChangeInCache(bot, slot, Recovery, Lost);
      }
    }

    /** Lost rows of the list whose channels can be reached again become shadow2, in turn. */
    method RecoverLost(bot: MonBot, recoveries: seq<Recovering>) returns (recovered: nat)
      requires Follows(bot) && Now().use == Usable && Now().degraded == {} && NoDup(RecoverRows(recoveries))
      modifies this, bot`cells, bot`store
      ensures Valid() && InTable(bot, Now()) && Now().degraded == {} && (recovered == 0 ==> Holds(bot, Now()))
      ensures recovered > 0 <==> Now().use != Usable
      ensures states[0] == old(states[0]) && events == old(events) + RecoverEvents(recoveries, |recoveries|)
    {
      recovered := 0;
      UsableList();
      ghost var read, events0 := bot.cells, events;
      for n := 0 to |recoveries|
        invariant Valid() && InTable(bot, Now()) && Now().degraded == {} && Now().cells == read
        invariant if recovered == 0 then Now().use == Usable && bot.cells == read else Now().use == Passing
        invariant Unread(read, bot.cells, RecoverRows(recoveries), n)
        invariant states[0] == old(states[0]) && events == events0 + RecoverEvents(recoveries, n)
      {
        var r := recoveries[n];
        assert RecoverRows(recoveries)[n] == r.row;
        ghost var s := Now();
        if LostAt(bot.cells, r.row) {
          ghost var shown := bot.cells;
          var applied := RecoverRow(bot, bot.cells[r.row].slot, r.cas);
          recovered := if applied then recovered + 1 else recovered;
          UnreadNext(read, shown, bot.cells, RecoverRows(recoveries), n);
        }
        Note(Recover(r), AfterRecover(s, r));
      }
    }

    // ---- the loop ----

    /** The rotation check is the step of the machine. */
    method CheckRotation(bot: MonBot, now: int, ok1: bool, ok2: bool, ok3: bool) returns (rotated: bool)
      requires Follows(bot) && Now().use == Usable && Now().degraded == {}
      modifies this, bot`cells, bot`store
      ensures Follows(bot) && (rotated <==> Now().use != Usable) && Now().degraded == {} && states[0] == old(states[0])
      ensures events == old(events) + [Rotate(RulesOf(bot), now, ok1, ok2, ok3)]
    {
      ghost var s := Now();
      NowKeepsInv();
      ghost var window, plan;
      rotated, window, plan := bot.CheckRotation(now, ok1, ok2, ok3);
      Note(Rotate(RulesOf(bot), now, ok1, ok2, ok3), Mon(bot.store, bot.cells, bot.cached, if rotated then Spent else Usable, {}));
    }

    /** One round of the main loop; an exception may end it in any of its phases. */
    method MainRound(bot: MonBot, r: Round)
      requires Valid() && InTable(bot, Now()) && (r.expired || Rested(bot)) && r.Proper()
      modifies this, bot`cells, bot`store, bot`cached
      ensures Valid() && InTable(bot, Now()) && (r.ends.Completed? ==> Rested(bot)) && states[0] == old(states[0])
      ensures events == old(events) + RoundEvents(r, RulesOf(bot))
    {
      ghost var events0 := events;
      RoundInParts(events0, r, RulesOf(bot));
      var bans := BeginRound(bot, r);
      if r.ends.InHeartbeat? {
        return;
      }
      CheckGroups(bot, r, bans);
      if r.ends.InDegradeCheck? {
        return;
      }
      var rotated := ReloadAndRotate(bot, r);
      if r.ends.InRotation? {
        return;
      }
      FinishRound(bot, r, rotated);
    }

    method BeginRound(bot: MonBot, r: Round) returns (bans: nat)
      requires Valid() && InTable(bot, Now()) && (r.expired || Rested(bot)) && NoDup(BanRows(r.bans))
      modifies this, bot`cells, bot`store, bot`cached
      ensures Valid() && InTable(bot, Now()) && Now().degraded == {} && (bans == 0 ==> Holds(bot, Now()))
      ensures (bans > 0 <==> Now().use != Usable) && states[0] == old(states[0]) && events == old(events) + HeartbeatEvents(r)
    {
      GetCells(bot, r.expired);
      bans := Heartbeat(bot, r.bans);
    }

    method CheckGroups(bot: MonBot, r: Round, bans: nat)
      requires Valid() && InTable(bot, Now()) && Now().degraded == {} && (bans == 0 ==> Holds(bot, Now()))
      requires (bans > 0 <==> Now().use != Usable) && NoDup(Keys(r.failing))
      modifies this, bot`cells, bot`store, bot`cached
      ensures Follows(bot) && Now().use == Usable && (r.failing == [] ==> Now().degraded == {}) && states[0] == old(states[0])
      ensures events == old(events) + DegradeCheckEvents(r)
    {
      RenewCells(bot, bans > 0);
      OthersLose(bot, r.lost);
      RunDegradeCheck(bot, r.failing);
    }

    method Reload(bot: MonBot, r: Round)
      requires Follows(bot) && Now().use == Usable && (Now().degraded == {} || r.reload)
      modifies this, bot`cells, bot`cached
      ensures Follows(bot) && Now().use == Usable && Now().degraded == {} && states[0] == old(states[0])
      ensures events == old(events) + ReloadEvents(r)
      ensures bot.cells == (if r.reload then bot.store else old(bot.cells)) && (!r.stillCached ==> !bot.cached)
    {
      if r.reload {
        LoadCells(bot, Load);
      }
      if !r.stillCached {
        DropCache(bot);
      }
    }

    /** The list is loaded again if something happened in the degrade check; then the rotation is checked. */
    method ReloadAndRotate(bot: MonBot, r: Round) returns (rotated: bool)
      requires Follows(bot) && Now().use == Usable && (Now().degraded == {} || r.reload)
      modifies this, bot`cells, bot`store, bot`cached
      ensures Follows(bot) && (rotated <==> Now().use != Usable) && Now().degraded == {} && states[0] == old(states[0])
      ensures events == old(events) + RotationEvents(r, RulesOf(bot))
    {
      Reload(bot, r);
      OthersLose(bot, r.lostLater);
      rotated := CheckRotation(bot, r.now, r.ok1, r.ok2, r.ok3);
    }

    /** After the rotation check: the list is loaded again if it was used up, and lost rows are recovered. */
    method FinishRound(bot: MonBot, r: Round, rotated: bool)
      requires Follows(bot) && (rotated <==> Now().use != Usable) && Now().degraded == {} && NoDup(RecoverRows(r.recoveries))
      modifies this, bot`cells, bot`store, bot`cached
      ensures Valid() && InTable(bot, Now()) && (r.ends.Completed? ==> Rested(bot)) && states[0] == old(states[0])
      ensures events == old(events) + RecoveryEvents(r)
    {
      RenewCells(bot, rotated);
      var recovered := RecoverLost(bot, r.recoveries);
      if r.ends.Completed? {
        RenewCells(bot, recovered > 0);
      }
    }

    ghost method Start(bot: MonBot)
      requires MonInv(Mon(bot.store, bot.cells, bot.cached, if bot.cached then Usable else Spent, {}))
      modifies this
      ensures Rested(bot) && states[0].store == bot.store && events == []
    {
      states := [Mon(bot.store, bot.cells, bot.cached, if bot.cached then Usable else Spent, {})];
      events := [];
    }

    /** The main loop. The wait after a round that an exception ended is long enough for the cached list to expire. */
    method MainLoop(bot: MonBot, rounds: seq<Round>)
      requires MonInv(Mon(bot.store, bot.cells, bot.cached, if bot.cached then Usable else Spent, {}))
      requires forall k :: 0 <= k < |rounds| ==> rounds[k].Proper()
      requires forall k :: 0 < k < |rounds| && !rounds[k - 1].ends.Completed? ==> rounds[k].expired
      modifies this, bot`cells, bot`store, bot`cached
      ensures Valid() && events == AllEvents(rounds, RulesOf(bot), |rounds|)
      ensures states[0].store == old(bot.store) && Now().store == bot.store
      ensures AtMostOneActive(bot.store) && SameNames(bot.store, old(bot.store))
      ensures (forall k :: 0 <= k < |events| ==> !Replaces(events[k])) ==> SameSlots(bot.store, old(bot.store))
    {
      Start(bot);
      for k := 0 to |rounds|
        invariant Valid() && InTable(bot, Now()) && states[0].store == old(bot.store)
        invariant (k == 0 || rounds[k - 1].ends.Completed?) ==> Rested(bot)
        invariant events == AllEvents(rounds, RulesOf(bot), k)
      {
        MainRound(bot, rounds[k]);
      }
      WholeRun();
    }

    lemma WholeRun()
      requires Valid()
      ensures AtMostOneActive(Now().store) && SameNames(Now().store, states[0].store)
      ensures (forall k :: 0 <= k < |events| ==> !Replaces(events[k])) ==> SameSlots(Now().store, states[0].store)
    {
      RunIsSegment(states, events);
      RunKeepsInv(states, events, |events|);
    }
  }

  // ---- the loop as a state machine ----

  datatype Rules = Rules(windowSize: nat, filesPerSlot: int, timePerSlot: int)

  function RulesOf(bot: MonBot): Rules
    reads bot
  {
    Rules(bot.windowSize, bot.filesPerSlot, bot.timePerSlot)
  }

  /** What a list is good for since it was loaded: everything; only the pass over its banned or its lost rows that is under way; or
      nothing, until it is loaded again. */
  datatype Use = Usable | Passing | Spent

  /** The table, the list loaded from it, whether that list is still the cached one, what it is good for, and the groups degraded
      since it was loaded. In a pass the list is the one the pass reads. */
  datatype Mon = Mon(store: seq<Cell>, cells: seq<Cell>, cached: bool, use: Use, degraded: set<string>)

  datatype Event =
    | Load
    | Get(expired: bool)
    | Renew
    | Invalidate
    | Lose(slots: set<string>)
    | Ban(ban: Banning)
    | Degrade(key: string, written: bool)
    | Rotate(rules: Rules, now: int, ok1: bool, ok2: bool, ok3: bool)
    | Recover(recovery: Recovering)

  function Loaded(s: Mon): Mon {
    Mon(s.store, s.store, true, Usable, {})
  }

  function MarkLost(cells: seq<Cell>, slots: set<string>): (r: seq<Cell>)
    ensures SameSlots(r, cells)
    ensures forall i :: IsActive(r, i) ==> IsActive(cells, i)
  {
    seq(|cells|, i requires 0 <= i < |cells| =>
      if cells[i].slot in slots then cells[i].(status := Lost, degradeCount := cells[i].degradeCount + 1, next := 0) else cells[i])
  }

  function AfterDegrade(s: Mon, key: string, written: bool): Mon {
    s.(cells := Degraded(s.cells, key, s.cells), store := if written then Degraded(s.cells, key, s.store) else s.store,
       degraded := s.degraded + {key})
  }

  /** What a rotation check makes of the table: nothing, unless one must happen; then the first batch, the rebuilt ring and the
      cleaned pointers as far as the three writes go through. */
  ghost predicate RotationStep(cells: seq<Cell>, cached: bool, before: seq<Cell>, r: Rules, now: int, ok1: bool, ok2: bool, ok3: bool,
                               after: seq<Cell>) {
    if !MustRotate(cells, r.windowSize, r.filesPerSlot, r.timePerSlot, now) then after == before
    else
      var window := WindowOf(cells, r.windowSize, r.filesPerSlot, r.timePerSlot, now);
      var plan := PlanOf(cells, window);
      && SameSlots(after, before)
      && (ok1 ==> Rotated(cells, before, plan, after) && Recounted(cells, before, plan, now, after))
      && (!ok1 ==> SameStatuses(after, before) && SameCounters(after, before))
      && (!ok2 ==> PointersLeft(cells, before, plan, RepairsOfWindow(cells, window), cached, ok1, after))
      && (ok2 && |ActiveIndices(after)| >= 2 && DistinctChannels(after, ActiveIndices(after)) ==> OneRing(after))
      && (ok3 ==> PointersClean(after, LiveChannels(after)))
  }

  /** The steps of the loop: the list is loaded, got from the cache or else loaded, or loaded when it is used up; it is dropped from
      the cache; rows are marked lost by others; a banned channel is replaced or lost; a group is degraded, at most once on one
      list; a rotation is checked, when no group was degraded since the list was loaded; a lost row is recovered. */
  ghost predicate Links(s: Mon, e: Event, s': Mon) {
    match e
    case Load => s' == Loaded(s)
    case Get(expired) => s' == if expired || !s.cached then Loaded(s) else s
    case Renew => s' == if s.use == Usable then s else Loaded(s)
    case Invalidate => s' == s.(cached := false)
    case Lose(slots) => s' == s.(store := MarkLost(s.store, slots))
    case Ban(b) => s.use != Spent && s.degraded == {} && s' == AfterBan(s, b)
    case Degrade(key, written) => s.use == Usable && key !in s.degraded && s' == AfterDegrade(s, key, written)
    case Rotate(r, now, ok1, ok2, ok3) =>
      && s.use == Usable && s.degraded == {} && s'.degraded == {} && s'.cached == s.cached
      && RotationStep(s.cells, s.cached, s.store, r, now, ok1, ok2, ok3, s'.store)
      && s'.use == (if MustRotate(s.cells, r.windowSize, r.filesPerSlot, r.timePerSlot, now) then Spent else Usable)
      && (s'.use == Usable ==> s'.cells == s.cells)
    case Recover(r) => s.use != Spent && s.degraded == {} && s' == AfterRecover(s, r)
  }

  ghost predicate IsSegment(states: seq<Mon>, events: seq<Event>) {
    |states| == |events| + 1 && forall k :: 0 <= k < |events| ==> Links(states[k], events[k], states[k + 1])
  }

  /** Outside the degraded groups the list shows every active row of the table as active. */
  ghost predicate Covers(cells: seq<Cell>, store: seq<Cell>, degraded: set<string>) {
    && SameSlots(cells, store)
    && forall i :: IsActive(store, i) && !(GroupKey(store[i].slot).Some? && GroupKey(store[i].slot).value in degraded) ==>
        IsActive(cells, i)
  }

  /** The list shows every active row of the table as active; channels may have been replaced since. */
  ghost predicate ShowsActive(cells: seq<Cell>, store: seq<Cell>) {
    SameNames(cells, store) && forall i :: IsActive(store, i) ==> IsActive(cells, i)
  }

  ghost predicate MonInv(s: Mon) {
    && UniqueSlots(s.store) && AtMostOneActive(s.store)
    && (s.use == Usable ==> AtMostOneActive(s.cells) && Covers(s.cells, s.store, s.degraded))
    && (s.use == Passing ==> AtMostOneActive(s.cells) && ShowsActive(s.cells, s.store) && s.degraded == {})
  }

  /** The bot has the table of the state, and its cache. */
  ghost predicate InTable(bot: MonBot, s: Mon)
    reads bot
  {
    bot.store == s.store && bot.cached == s.cached
  }

  ghost predicate Holds(bot: MonBot, s: Mon)
    reads bot
  {
    InTable(bot, s) && (s.use == Usable ==> bot.cells == s.cells)
  }

  /** Degrading a group on the list keeps at most one active row a group, in any table that shows no more active rows of it. */
  lemma DegradeKeepsOne(cells: seq<Cell>, key: string, before: seq<Cell>)
    requires SameSlots(cells, before) && AtMostOneActive(cells) && AtMostOneActive(before)
    requires forall i :: IsActive(before, i) && GroupKey(before[i].slot) == Some(key) ==> IsActive(cells, i)
    ensures AtMostOneActive(Degraded(cells, key, before))
  {
    if FailoverOf(cells, key).failed != -1 {
      var after := Degraded(cells, key, before);
      DegradeOutcome(cells, key, before);
      forall i, j | IsActive(after, i) && IsActive(after, j) && i != j
        ensures GroupKey(after[i].slot) == None || GroupKey(after[i].slot) != GroupKey(after[j].slot)
      {
        if GroupKey(after[i].slot) != Some(key) && GroupKey(after[j].slot) != Some(key) {
          assert IsActive(before, i) && IsActive(before, j);
        }
      }
    }
  }

  lemma DegradeKeepsCover(s: Mon, key: string, written: bool)
    requires MonInv(s) && s.use == Usable && key !in s.degraded
    ensures MonInv(AfterDegrade(s, key, written))
  {
    var after := AfterDegrade(s, key, written);
    DegradeKeepsOne(s.cells, key, s.cells);
    DegradeKeepsOne(s.cells, key, s.store);
    if FailoverOf(s.cells, key).failed != -1 {
      DegradeOutcome(s.cells, key, s.cells);
      DegradeOutcome(s.cells, key, s.store);
    }
    forall i | IsActive(after.store, i) && !(GroupKey(after.store[i].slot).Some? && GroupKey(after.store[i].slot).value in after.degraded)
      ensures IsActive(after.cells, i)
    {
      assert GroupKey(s.store[i].slot) != Some(key);
      assert IsActive(s.store, i);
    }
  }

  lemma RotateKeepsOne(s: Mon, r: Rules, now: int, ok1: bool, ok2: bool, ok3: bool, after: seq<Cell>)
    requires MonInv(s) && s.use == Usable && s.degraded == {}
    requires RotationStep(s.cells, s.cached, s.store, r, now, ok1, ok2, ok3, after)
    ensures AtMostOneActive(after) && SameSlots(after, s.store)
  {
    if MustRotate(s.cells, r.windowSize, r.filesPerSlot, r.timePerSlot, now) {
      var window := WindowOf(s.cells, r.windowSize, r.filesPerSlot, r.timePerSlot, now);
      WindowIsActive(s.cells, r.windowSize, r.filesPerSlot, r.timePerSlot, now);
      PlanOfIsPlan(s.cells, window);
      if ok1 {
        RotationOutcome(s.cells, s.store, window, PlanOf(s.cells, window), after);
      } else {
        SameStatusesKeepOne(s.store, after);
      }
    }
  }

  lemma SameStatusesKeepOne(before: seq<Cell>, after: seq<Cell>)
    requires SameStatuses(after, before) && AtMostOneActive(before)
    ensures AtMostOneActive(after)
  {
    forall i, j | IsActive(after, i) && IsActive(after, j) && i != j
      ensures GroupKey(after[i].slot) == None || GroupKey(after[i].slot) != GroupKey(after[j].slot)
    {
      assert IsActive(before, i) && IsActive(before, j);
    }
  }

  lemma WindowIsActive(cells: seq<Cell>, windowSize: nat, filesPerSlot: int, timePerSlot: int, now: int)
    requires HasWindow(cells, windowSize, filesPerSlot, timePerSlot, now)
    ensures var window := WindowOf(cells, windowSize, filesPerSlot, timePerSlot, now);
      NoDup(window) && forall i :: i in window ==> IsActive(cells, i)
  {
    var order := RingOrderOf(cells, FirstDue(cells, filesPerSlot, timePerSlot, now));
    RingOrderFacts(cells, FirstDue(cells, filesPerSlot, timePerSlot, now));
    forall i | i in order[..windowSize] ensures IsActive(cells, i) {
      assert i in order && i in ActiveIndices(cells);
    }
  }

  /** The step may give a row another channel. */
  predicate Replaces(e: Event) {
    e.Ban? && e.ban.change.Replacement?
  }

  lemma StepKeepsInv(s: Mon, e: Event, s': Mon)
    requires MonInv(s) && Links(s, e, s')
    ensures MonInv(s') && SameNames(s'.store, s.store) && (!Replaces(e) ==> SameSlots(s'.store, s.store))
  {
    match e
    case Load =>
    case Get(expired) =>
    case Renew =>
    case Invalidate =>
    case Lose(slots) => LoseKeepsInv(s, slots);
    case Ban(b) => BanKeepsInv(s, b);
    case Degrade(key, written) => DegradeKeepsCover(s, key, written);
    case Rotate(r, now, ok1, ok2, ok3) => RotateKeepsOne(s, r, now, ok1, ok2, ok3, s'.store);
    case Recover(r) => RecoverKeepsInv(s, r);
  }

  lemma LoseKeepsInv(s: Mon, slots: set<string>)
    requires MonInv(s)
    ensures MonInv(s.(store := MarkLost(s.store, slots)))
  {
    var after := MarkLost(s.store, slots);
    forall i, j | IsActive(after, i) && IsActive(after, j) && i != j
      ensures GroupKey(after[i].slot) == None || GroupKey(after[i].slot) != GroupKey(after[j].slot)
    {
      assert IsActive(s.store, i) && IsActive(s.store, j);
    }
  }

  /** Over every run of loads, losses, bans, failovers, rotations and recoveries, with any writes failing: no group ever has two
      active rows, no row is added or dropped, and channels change only when a banned one is replaced. */
  lemma {:induction false} RunKeepsInv(states: seq<Mon>, events: seq<Event>, k: nat)
    requires IsSegment(states, events) && MonInv(states[0]) && k < |states|
    ensures MonInv(states[k]) && AtMostOneActive(states[k].store) && SameNames(states[k].store, states[0].store)
    ensures (forall m :: 0 <= m < k ==> !Replaces(events[m])) ==> SameSlots(states[k].store, states[0].store)
  {
    if k > 0 {
      RunKeepsInv(states, events, k - 1);
      StepKeepsInv(states[k - 1], events[k - 1], states[k]);
    }
  }

  /** State k is a good one to start from, or follows from the one before. */
  ghost predicate FollowsAt(states: seq<Mon>, events: seq<Event>, k: nat)
    requires k <= |events| && |states| == |events| + 1
  {
    if k == 0 then MonInv(states[0]) else Links(states[k - 1], events[k - 1], states[k])
  }

  /** A run from a good state. */
  ghost predicate IsRun(states: seq<Mon>, events: seq<Event>) {
    |states| == |events| + 1 && forall k :: 0 <= k <= |events| ==> FollowsAt(states, events, k)
  }

  lemma RunSnoc(states: seq<Mon>, events: seq<Event>, e: Event, after: Mon)
    requires IsRun(states, events) && Links(states[|events|], e, after)
    ensures IsRun(states + [after], events + [e])
  {
    var states', events' := states + [after], events + [e];
    forall k | 0 <= k <= |events'| ensures FollowsAt(states', events', k) {
      assert k <= |events| ==> FollowsAt(states, events, k);
    }
  }

  lemma RunIsSegment(states: seq<Mon>, events: seq<Event>)
    requires IsRun(states, events)
    ensures IsSegment(states, events) && MonInv(states[0])
  {
    assert FollowsAt(states, events, 0);
    forall k | 0 <= k < |events| ensures Links(states[k], events[k], states[k + 1]) {
      assert FollowsAt(states, events, k + 1);
    }
  }

  // ---- conditional updates ----

  /** What the monitor makes of a row whose channel is banned or can be reached again. */
  datatype Change = NoChange | Replacement(channel: int, now: int) | Loss | Recovery

  /** What follows a conditional update that changed nothing: it is refused, or, in maintenance mode, made without the condition, by
      a write the store may drop. */
  datatype Fallback = Refused | Lapsed | Forced

  datatype Cas = Cas(up: bool, fallback: Fallback)

  /** The pointer at a replaced channel: the table cannot be read, the write is dropped, or it is made. */
  datatype Fix = Unseen | Unwritten | Made

  /** A row of the list whose channel is banned: what is made of it, and how the writes fare. */
  datatype Banning = Banning(row: nat, change: Change, cas: Cas, fix: Fix)

  /** A lost row of the list whose channel can be reached, and how the write fares. */
  datatype Recovering = Recovering(row: nat, cas: Cas)

  /** The same rows, up to everything but their names. */
  ghost predicate SameNames(a: seq<Cell>, b: seq<Cell>) {
    |a| == |b| && forall i :: 0 <= i < |a| ==> a[i].slot == b[i].slot
  }

  function Changed(c: Cell, change: Change, status: Status): (r: Cell)
    ensures r.slot == c.slot && (!change.Replacement? ==> r.channel == c.channel)
  {
    match change
    case NoChange => c
    case Replacement(channel, now) => c.(channel := channel, status := status, fileCount := 0, started := Some(now))
    case Loss => c.(status := Lost, next := 0)
    case Recovery => c.(status := Shadow2, next := 0, degradeCount := 0, fileCount := 0, demotedTo := 0)
  }

  function ChangeRow(cells: seq<Cell>, slot: string, change: Change, status: Status): (r: seq<Cell>)
    ensures |r| == |cells|
    ensures forall i :: 0 <= i < |cells| ==> r[i] == if cells[i].slot == slot then Changed(cells[i], change, status) else cells[i]
  {
    seq(|cells|, i requires 0 <= i < |cells| => if cells[i].slot == slot then Changed(cells[i], change, status) else cells[i])
  }

  predicate Finds(cells: seq<Cell>, slot: string, expected: Status) {
    exists i :: 0 <= i < |cells| && cells[i].slot == slot && cells[i].status == expected
  }

  /** The row changes when it has the status expected, or when the change is forced. */
  function Transitioned(cells: seq<Cell>, slot: string, expected: Status, change: Change, cas: Cas): seq<Cell> {
    if (cas.up && Finds(cells, slot, expected)) || cas.fallback.Forced? then ChangeRow(cells, slot, change, expected) else cells
  }

  /** The monitor takes it as changed. */
  predicate Applied(cells: seq<Cell>, slot: string, expected: Status, cas: Cas) {
    (cas.up && Finds(cells, slot, expected)) || !cas.fallback.Refused?
  }

  /** The first row that is not lost and points at the channel, or -1. */
  function FirstPointing(cells: seq<Cell>, channel: int): (i: int)
    ensures i == -1 || (0 <= i < |cells| && cells[i].status != Lost && cells[i].next == channel)
  {
    if cells == [] then -1
    else
      var first := FirstPointing(cells[..|cells| - 1], channel);
      if first != -1 then first
      else if cells[|cells| - 1].status != Lost && channel != 0 && cells[|cells| - 1].next == channel then |cells| - 1 else -1
  }

  function WithPointer(cells: seq<Cell>, slot: string, to: int): (r: seq<Cell>)
    ensures SameStatuses(r, cells)
  {
    seq(|cells|, i requires 0 <= i < |cells| => if cells[i].slot == slot then cells[i].(next := to) else cells[i])
  }

  function PointerFixed(cells: seq<Cell>, from: int, to: int): (r: seq<Cell>)
    ensures SameStatuses(r, cells)
  {
    var i := FirstPointing(cells, from);
    if i == -1 then cells else WithPointer(cells, cells[i].slot, to)
  }

  /** The table after a ban of the channel of a row of the list. */
  function BanStore(store: seq<Cell>, row: Cell, b: Banning): seq<Cell> {
    if b.change.NoChange? then store
    else
      var t := Transitioned(store, row.slot, row.status, b.change, b.cas);
      if Applied(store, row.slot, row.status, b.cas) && b.change.Replacement? && b.fix.Made?
      then PointerFixed(t, row.channel, b.change.channel) else t
  }

  // ---- what becomes of the rows ----

  /** The conditional update finds its row, or is forced. */
  ghost predicate TakesEffect(store: seq<Cell>, slot: string, expected: Status, cas: Cas) {
    (cas.up && exists i :: 0 <= i < |store| && store[i].slot == slot && store[i].status == expected) || cas.fallback == Forced
  }

  /** A row without a spare is lost and points nowhere; one with a spare has its channel, the status it had in the list, no files and
      a new start; one recovered is a shadow2 that points nowhere, with its counters cleared. Nothing else about it changes but
      for the pointer of a row with a spare. */
  ghost predicate Becomes(before: Cell, after: Cell, change: Change, status: Status) {
    match change
    case NoChange => after == before
    case Loss =>
      && after.slot == before.slot && after.channel == before.channel && after.status == Lost && after.next == 0
      && after.fileCount == before.fileCount && after.started == before.started
      && after.degradeCount == before.degradeCount && after.demotedTo == before.demotedTo
    case Replacement(channel, now) =>
      && after.slot == before.slot && after.channel == channel && after.status == status
      && after.fileCount == 0 && after.started == Some(now)
      && after.degradeCount == before.degradeCount && after.demotedTo == before.demotedTo
    case Recovery =>
      && after.slot == before.slot && after.channel == before.channel && after.status == Shadow2 && after.next == 0
      && after.fileCount == 0 && after.started == before.started && after.degradeCount == 0 && after.demotedTo == 0
  }

  /** The table after a ban: the row is as it becomes when the update takes effect; every other row, and this one when it does not,
      stays as it is, but for the first row that points at the old channel of a replaced row, which points at the new one. */
  ghost predicate BannedTable(before: seq<Cell>, after: seq<Cell>, row: Cell, b: Banning) {
    && |after| == |before|
    && (forall i :: 0 <= i < |before| ==> BannedRow(before, row, b, before[i], after[i]))
    && (forall i :: 0 <= i < |before| && after[i].next != before[i].next && b.change.Replacement? ==> Repointing(before, after, row, b, i))
  }

  ghost predicate BannedRow(before: seq<Cell>, row: Cell, b: Banning, c: Cell, c': Cell) {
    if c.slot == row.slot && TakesEffect(before, row.slot, row.status, b.cas) then Becomes(c, c', b.change, row.status)
    else c' == c || (b.change.Replacement? && c' == c.(next := c'.next))
  }

  /** Row i is the first that is not lost and points at the old channel; it points at the new one. */
  ghost predicate Repointing(before: seq<Cell>, after: seq<Cell>, row: Cell, b: Banning, i: nat)
    requires i < |before| == |after| && b.change.Replacement?
  {
    && b.fix == Made && before[i].next == row.channel != 0 && after[i].next == b.change.channel
    && forall k :: 0 <= k < i && before[k].slot != row.slot ==> before[k].next != row.channel || before[k].status == Lost
  }

  lemma FirstPointingIsFirst(cells: seq<Cell>, channel: int)
    ensures var i := FirstPointing(cells, channel);
      && (i != -1 ==> channel != 0)
      && forall k :: 0 <= k < |cells| && (i == -1 || k < i) ==> cells[k].status == Lost || cells[k].next != channel || channel == 0
  {
  }

  lemma BanInFields(store: seq<Cell>, row: Cell, b: Banning)
    requires UniqueSlots(store)
    ensures BannedTable(store, BanStore(store, row, b), row, b)
  {
    var t := Transitioned(store, row.slot, row.status, b.change, b.cas);
    if b.change.Replacement? {
      forall i | 0 <= i < |store| && BanStore(store, row, b)[i].next != store[i].next
        ensures Repointing(store, BanStore(store, row, b), row, b, i)
      {
        assert t[i].next == store[i].next && t[i].slot == store[i].slot;
        FirstPointingIsFirst(t, row.channel);
        assert forall k :: 0 <= k < |t| ==> t[k].slot == store[k].slot;
        assert i == FirstPointing(t, row.channel);
        assert forall k :: 0 <= k < i && store[k].slot != row.slot ==> t[k] == store[k];
      }
    }
  }

  /** The channel has no spare, and the store takes conditional updates or the change is forced. */
  predicate MustLose(b: Banning) {
    b.change == Loss && (b.cas.up || b.cas.fallback == Forced)
  }

  /** None of the first n rows to lose is active. */
  ghost predicate NoneActive(store: seq<Cell>, bans: seq<Banning>, n: nat)
    requires n <= |bans|
  {
    forall m :: 0 <= m < n && MustLose(bans[m]) ==> !IsActive(store, bans[m].row)
  }

  lemma BanKeepsInactive(read: seq<Cell>, store: seq<Cell>, bans: seq<Banning>, n: nat)
    requires UniqueSlots(store) && ShowsActive(read, store) && n < |bans| && NoDup(BanRows(bans)) && NoneActive(store, bans, n)
    ensures !Beats(read, bans[n].row) ==> NoneActive(store, bans, n + 1)
    ensures Beats(read, bans[n].row) ==> NoneActive(BanStore(store, read[bans[n].row], bans[n]), bans, n + 1)
  {
    var b := bans[n];
    if Beats(read, b.row) {
      var row, after := read[b.row], BanStore(store, read[b.row], b);
      BanInFields(store, row, b);
      forall m | 0 <= m < n + 1 && MustLose(bans[m]) ensures !IsActive(after, bans[m].row) {
        var i := bans[m].row;
        if i < |store| {
          assert BannedRow(store, row, b, store[i], after[i]);
          assert m < n ==> BanRows(bans)[m] != BanRows(bans)[n];
          assert i != b.row ==> store[i].slot != row.slot;
        }
      }
    }
  }

  /** A pointer at the old channel is found when there is one. */
  lemma PointerIsFixed(store: seq<Cell>, row: Cell, b: Banning, i: nat)
    requires UniqueSlots(store) && b.change.Replacement? && b.fix == Made && TakesEffect(store, row.slot, row.status, b.cas)
    requires i < |store| && store[i].slot != row.slot && store[i].status != Lost && store[i].next == row.channel != 0
    ensures exists j :: 0 <= j < |store| && store[j].next == row.channel && BanStore(store, row, b)[j].next == b.change.channel
  {
    var t := Transitioned(store, row.slot, row.status, b.change, b.cas);
    FirstPointingIsFirst(t, row.channel);
    assert t[i] == store[i];
    var j := FirstPointing(t, row.channel);
    assert t[j].next == store[j].next && BanStore(store, row, b)[j].next == b.change.channel;
  }

  lemma RecoveryInFields(store: seq<Cell>, slot: string, cas: Cas)
    ensures var after := Transitioned(store, slot, Lost, Recovery, cas);
      && |after| == |store|
      && forall i :: 0 <= i < |store| ==>
        if store[i].slot == slot && TakesEffect(store, slot, Lost, cas) then Becomes(store[i], after[i], Recovery, Lost)
        else after[i] == store[i]
  {
  }

  /** The rows the heartbeat looks at. */
  predicate Beats(cells: seq<Cell>, i: nat) {
    i < |cells| && cells[i].status in {Active, Shadow1, Shadow2}
  }

  predicate LostAt(cells: seq<Cell>, i: nat) {
    i < |cells| && cells[i].status == Lost
  }

  function AfterBan(s: Mon, b: Banning): Mon {
    if !Beats(s.cells, b.row) then s
    else s.(store := BanStore(s.store, s.cells[b.row], b), cached := s.cached && b.change.NoChange?, use := Passing)
  }

  function AfterRecover(s: Mon, r: Recovering): Mon {
    if !LostAt(s.cells, r.row) then s
    else
      var slot := s.cells[r.row].slot;
      s.(store := Transitioned(s.store, slot, Lost, Recovery, r.cas),
         use := if Applied(s.store, slot, Lost, r.cas) then Passing else s.use)
  }

  lemma BanStatuses(store: seq<Cell>, row: Cell, b: Banning, i: nat)
    requires i < |store|
    ensures var after := BanStore(store, row, b);
      && |after| == |store| && after[i].slot == store[i].slot
      && (!b.change.Replacement? ==> after[i].channel == store[i].channel)
      && (after[i].status == Active ==> store[i].status == Active || (store[i].slot == row.slot && row.status == Active))
  {
  }

  /** Whatever rows change, the list still shows the active ones, so there is at most one a group. */
  lemma ShownIsOne(cells: seq<Cell>, store: seq<Cell>)
    requires UniqueSlots(cells) && AtMostOneActive(cells) && ShowsActive(cells, store)
    ensures UniqueSlots(store) && AtMostOneActive(store)
  {
  }

  /** One step of a heartbeat: the rows in use are looked at, whatever their status in the table has become, and after a ban the
      list serves for nothing but the rest of the pass. */
  lemma BanStep(s: Mon, b: Banning)
    requires UniqueSlots(s.store)
    ensures var s' := AfterBan(s, b);
      && s'.cells == s.cells && s'.degraded == s.degraded
      && if b.row < |s.cells| && s.cells[b.row].status in [Active, Shadow1, Shadow2]
         then BannedTable(s.store, s'.store, s.cells[b.row], b) && s'.use == Passing && s'.cached == (s.cached && b.change == NoChange)
         else s' == s
  {
    if Beats(s.cells, b.row) {
      BanInFields(s.store, s.cells[b.row], b);
    }
  }

  /** One step of a recovery: the rows the list shows as lost are looked at. */
  lemma RecoverStep(s: Mon, r: Recovering)
    ensures var s' := AfterRecover(s, r);
      && s'.cells == s.cells && s'.degraded == s.degraded && s'.cached == s.cached && |s'.store| == |s.store|
      && if r.row < |s.cells| && s.cells[r.row].status == Lost
         then forall i :: 0 <= i < |s.store| ==>
           if s.store[i].slot == s.cells[r.row].slot && TakesEffect(s.store, s.cells[r.row].slot, Lost, r.cas)
           then Becomes(s.store[i], s'.store[i], Recovery, Lost) else s'.store[i] == s.store[i]
         else s' == s
  {
    if LostAt(s.cells, r.row) {
      RecoveryInFields(s.store, s.cells[r.row].slot, r.cas);
    }
  }

  /** One failover: decided on the list and made there at once, and in the table when the write goes through. */
  lemma DegradeStep(s: Mon, key: string, written: bool)
    requires SameSlots(s.cells, s.store) && FailoverOf(s.cells, key).failed != -1
    ensures var d, s' := FailoverOf(s.cells, key), AfterDegrade(s, key, written);
      && |s'.cells| == |s'.store| == |s.cells| && key in s'.degraded
      && s'.cells[d.failed].status == Lost && s'.cells[d.failed].next == 0
      && (d.promote != -1 ==> 0 <= d.promote < |s.cells| && s'.cells[d.promote].status == Active)
      && if written then s'.store[d.failed].status == Lost && (d.promote != -1 ==> s'.store[d.promote].status == Active)
         else s'.store == s.store
  {
    FailoverInFields(s.cells, key, s.cells);
    FailoverInFields(s.cells, key, s.store);
  }

  /** What others do: the named rows are lost, with one failure more and without a pointer; no other row changes. */
  lemma LossInFields(cells: seq<Cell>, slots: set<string>, i: nat)
    requires i < |cells|
    ensures var c := MarkLost(cells, slots)[i];
      if cells[i].slot in slots
      then c == cells[i].(status := Lost, next := 0, degradeCount := cells[i].degradeCount + 1) else c == cells[i]
  {
  }

  lemma BanKeepsInv(s: Mon, b: Banning)
    requires MonInv(s) && s.use != Spent && s.degraded == {}
    ensures MonInv(AfterBan(s, b)) && SameNames(AfterBan(s, b).store, s.store)
    ensures !b.change.Replacement? ==> SameSlots(AfterBan(s, b).store, s.store)
  {
    if Beats(s.cells, b.row) {
      var row, after := s.cells[b.row], AfterBan(s, b).store;
      assert ShowsActive(s.cells, s.store);
      if s.store == [] {
        assert false;
      }
      BanStatuses(s.store, row, b, 0);
      forall i | 0 <= i < |s.store|
        ensures after[i].slot == s.store[i].slot && (!b.change.Replacement? ==> after[i].channel == s.store[i].channel)
        ensures IsActive(after, i) ==> IsActive(s.cells, i)
      {
        BanStatuses(s.store, row, b, i);
        assert s.store[i].slot == row.slot ==> i == b.row;
      }
      ShownIsOne(s.cells, after);
    }
  }

  lemma RecoverKeepsInv(s: Mon, r: Recovering)
    requires MonInv(s) && s.use != Spent && s.degraded == {}
    ensures MonInv(AfterRecover(s, r)) && SameSlots(AfterRecover(s, r).store, s.store)
  {
    if LostAt(s.cells, r.row) {
      var after := AfterRecover(s, r).store;
      assert ShowsActive(s.cells, s.store);
      assert ShowsActive(s.cells, after);
      ShownIsOne(s.cells, after);
      if AfterRecover(s, r).use == Usable {
        assert after == s.store;
      }
    }
  }

  // ---- a pass over the list ----

  /** The same row, up to its pointer and counters. */
  ghost predicate SameRow(a: seq<Cell>, b: seq<Cell>, i: nat) {
    |a| == |b| && (i < |a| ==> a[i].slot == b[i].slot && a[i].channel == b[i].channel && a[i].status == b[i].status)
  }

  /** The rows of a pass from the n-th on are as they were read. */
  ghost predicate Unread(read: seq<Cell>, cells: seq<Cell>, rows: seq<nat>, n: nat) {
    && UniqueSlots(read) && SameNames(read, cells) && NoDup(rows)
    && forall k :: n <= k < |rows| ==> SameRow(read, cells, rows[k])
  }

  lemma UnreadNext(read: seq<Cell>, shown: seq<Cell>, cells: seq<Cell>, rows: seq<nat>, n: nat)
    requires Unread(read, shown, rows, n) && n < |rows| && rows[n] < |read| && SameNames(cells, shown)
    requires forall k :: 0 <= k < |cells| && cells[k].slot != shown[rows[n]].slot ==> SameRow(cells, shown, k)
    ensures Unread(read, cells, rows, n + 1)
  {
    forall k | n + 1 <= k < |rows| ensures SameRow(read, cells, rows[k]) {
      assert rows[k] != rows[n];
    }
  }

  lemma SameBan(store: seq<Cell>, a: Cell, b: Cell, ban: Banning)
    requires a.slot == b.slot && a.channel == b.channel && a.status == b.status
    ensures BanStore(store, a, ban) == BanStore(store, b, ban)
  {
  }

  // ---- a list that does not show an active row ----

  /** Why a list whose failover never reached the table must not be rotated on: a row that is active in the table and not in the list
      stays active beside the row the rotation wakes in its group. */
  lemma UnseenActiveBreaksRotation(cells: seq<Cell>, before: seq<Cell>, window: seq<int>, plan: Plan, after: seq<Cell>, i: int, w: nat)
    requires SameSlots(cells, before) && PlanFor(cells, window, plan) && forall f :: f in window ==> IsActive(cells, f)
    requires Rotated(cells, before, plan, after) && w < |plan.promoted|
    requires IsActive(before, i) && !IsActive(cells, i) && cells[i].status != Shadow2
    requires i != plan.promoted[w].0 && InGroupOf(cells, i, plan.promoted[w].0)
    ensures IsActive(after, i) && IsActive(after, plan.promoted[w].0) && !AtMostOneActive(after)
  {
    var (p, f) := plan.promoted[w];
    PlanInRange(cells, window, plan);
    assert plan.promoted[w] in plan.promoted && Promotes(plan, p);
    NotWoken(cells, window, plan, f);
  }

  // ---- one round ----

  /** Where an exception ends a round. */
  datatype Phase = InHeartbeat | InDegradeCheck | InRotation | InRecovery | Completed

  /** One round: whether the cached list is too old, the rows whose channels are banned, the slots others mark lost before and after
      the degrade check, the groups that fail over and whether their writes go through, whether the list is loaded again, whether
      it is still the cached one at the rotation check, the clock, which writes of the rotation go through, the lost rows whose
      channels can be reached, and where the round ends. */
  datatype Round = Round(expired: bool, bans: seq<Banning>, lost: set<string>, failing: seq<(string, bool)>, reload: bool,
                         stillCached: bool, lostLater: set<string>, now: int, ok1: bool, ok2: bool, ok3: bool,
                         recoveries: seq<Recovering>, ends: Phase) {
    /** Each row and each group is looked at once, and a failover is followed by a reload. */
    ghost predicate Proper() {
      NoDup(BanRows(bans)) && NoDup(Keys(failing)) && NoDup(RecoverRows(recoveries)) && (failing != [] ==> reload)
    }
  }

  function BanRows(bans: seq<Banning>): (rows: seq<nat>)
    ensures |rows| == |bans|
  {
    seq(|bans|, k requires 0 <= k < |bans| => bans[k].row)
  }

  function RecoverRows(recoveries: seq<Recovering>): (rows: seq<nat>)
    ensures |rows| == |recoveries|
  {
    seq(|recoveries|, k requires 0 <= k < |recoveries| => recoveries[k].row)
  }

  function Keys(failing: seq<(string, bool)>): seq<string> {
    seq(|failing|, k requires 0 <= k < |failing| => failing[k].0)
  }

  function KeySet(failing: seq<(string, bool)>, n: nat): set<string>
    requires n <= |failing|
  {
    if n == 0 then {} else KeySet(failing, n - 1) + {failing[n - 1].0}
  }

  lemma {:induction false} KeyIsNew(failing: seq<(string, bool)>, n: nat, m: nat)
    requires n <= m < |failing| && NoDup(Keys(failing))
    ensures failing[m].0 !in KeySet(failing, n)
  {
    if n > 0 {
      KeyIsNew(failing, n - 1, m);
      assert Keys(failing)[n - 1] != Keys(failing)[m];
    }
  }

  /** The triples of every group of the rows. */
  ghost predicate Gathers(cells: seq<Cell>, groups: map<string, Triple>) {
    && (forall i :: 0 <= i < |cells| && GroupKey(cells[i].slot).Some? ==> GroupKey(cells[i].slot).value in groups)
    && (forall k :: k in groups ==> groups[k] == GroupOf(cells, k))
  }

  /** The triples do not depend on what happens to the rows of the list. */
  lemma GathersLater(cells0: seq<Cell>, cells: seq<Cell>, groups: map<string, Triple>)
    requires SameSlots(cells0, cells) && Gathers(cells0, groups)
    ensures Gathers(cells, groups)
  {
    forall key | key in groups ensures groups[key] == GroupOf(cells, key) {
      SameGroups(cells0, cells, key);
    }
  }

  function DegradeEvents(failing: seq<(string, bool)>, n: nat): seq<Event>
    requires n <= |failing|
  {
    if n == 0 then [] else DegradeEvents(failing, n - 1) + [Degrade(failing[n - 1].0, failing[n - 1].1)]
  }

  function BanEvents(bans: seq<Banning>, n: nat): seq<Event>
    requires n <= |bans|
  {
    if n == 0 then [] else BanEvents(bans, n - 1) + [Ban(bans[n - 1])]
  }

  function RecoverEvents(recoveries: seq<Recovering>, n: nat): seq<Event>
    requires n <= |recoveries|
  {
    if n == 0 then [] else RecoverEvents(recoveries, n - 1) + [Recover(recoveries[n - 1])]
  }

  function HeartbeatEvents(r: Round): seq<Event> {
    [Get(r.expired)] + BanEvents(r.bans, |r.bans|)
  }

  function DegradeCheckEvents(r: Round): seq<Event> {
    [Renew, Lose(r.lost)] + DegradeEvents(r.failing, |r.failing|)
  }

  function ReloadEvents(r: Round): seq<Event> {
    (if r.reload then [Load] else []) + if r.stillCached then [] else [Invalidate]
  }

  function RotationEvents(r: Round, rules: Rules): seq<Event> {
    ReloadEvents(r) + [Lose(r.lostLater), Rotate(rules, r.now, r.ok1, r.ok2, r.ok3)]
  }

  function RecoveryEvents(r: Round): seq<Event> {
    [Renew] + RecoverEvents(r.recoveries, |r.recoveries|) + if r.ends.Completed? then [Renew] else []
  }

  /** The events of a round up to the phase it ends in. */
  function RoundEvents(r: Round, rules: Rules): seq<Event> {
    if r.ends.InHeartbeat? then HeartbeatEvents(r)
    else if r.ends.InDegradeCheck? then HeartbeatEvents(r) + DegradeCheckEvents(r)
    else if r.ends.InRotation? then HeartbeatEvents(r) + DegradeCheckEvents(r) + RotationEvents(r, rules)
    else HeartbeatEvents(r) + DegradeCheckEvents(r) + RotationEvents(r, rules) + RecoveryEvents(r)
  }

  lemma RoundInParts(events: seq<Event>, r: Round, rules: Rules)
    ensures r.ends.InHeartbeat? ==> RoundEvents(r, rules) == HeartbeatEvents(r)
    ensures r.ends.InDegradeCheck? ==> events + RoundEvents(r, rules) == events + HeartbeatEvents(r) + DegradeCheckEvents(r)
    ensures r.ends.InRotation? ==>
      events + RoundEvents(r, rules) == events + HeartbeatEvents(r) + DegradeCheckEvents(r) + RotationEvents(r, rules)
    ensures r.ends.InRecovery? || r.ends.Completed? ==> (
      events + RoundEvents(r, rules)
        == events + HeartbeatEvents(r) + DegradeCheckEvents(r) + RotationEvents(r, rules) + RecoveryEvents(r))
  {
    ThreeParts(events, HeartbeatEvents(r), DegradeCheckEvents(r), RotationEvents(r, rules), RecoveryEvents(r));
  }

  lemma ThreeParts<T>(events: seq<T>, a: seq<T>, b: seq<T>, c: seq<T>, d: seq<T>)
    ensures events + (a + b) == events + a + b && events + (a + b + c) == events + a + b + c
    ensures events + (a + b + c + d) == events + a + b + c + d
  {
  }

  /** The events of the first n rounds. */
  function AllEvents(rounds: seq<Round>, rules: Rules, n: nat): seq<Event>
    requires n <= |rounds|
  {
    if n == 0 then [] else AllEvents(rounds, rules, n - 1) + RoundEvents(rounds[n - 1], rules)
  }
}
