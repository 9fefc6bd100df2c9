/** Rows of cells_local (one row per channel slot), slot names, and field updates keyed by slot. */
module Cells {
  import opened Ring
  import opened Text

  datatype Option<+T> = None | Some(value: T)

  datatype Status = Active | Shadow1 | Shadow2 | Lost | R100 | Other(name: string)

  /** next == 0 and demotedTo == 0 stand for a NULL pointer; started is None when the stored
      timestamp is empty or does not parse. */
  datatype Cell = Cell(slot: string, channel: int, status: Status, next: int,
                       fileCount: int, started: Option<int>, degradeCount: int, demotedTo: int)

  /** One (slot_id, {fields}) update; a field that is None is not in the dict. */
  datatype Update = Update(slot: string, status: Option<Status>, next: Option<int>, fileCount: Option<int>,
                           started: Option<int>, degradeCount: Option<int>, demotedTo: Option<int>)

  // ---- slot names: [as] followed by digits, as in "a7", "s7a", "s7b" ----

  function DigitRun(s: string): (r: string)
    ensures AllDigits(r)
  {
    if s != [] && IsDigit(s[0]) then [s[0]] + DigitRun(s[1..]) else []
  }

  /** The group number captured by matching [as](\d+) at the start of a slot name. */
  function GroupKey(slot: string): Option<string> {
    if |slot| >= 2 && slot[0] in {'a', 's'} && IsDigit(slot[1]) then Some(DigitRun(slot[1..])) else None
  }

  /** Sort key of the ring rebuild: the group number, or 999 for a slot outside every group. */
  function GroupNumber(slot: string): nat {
    if |slot| >= 2 && slot[0] in {'a', 's'} && IsDigit(slot[1]) then DigitsValue(DigitRun(slot[1..])) else 999
  }

  /** Position of a slot in its group's triple: 0 for aN, 1 for sNa, 2 for sNb. */
  function Position(slot: string): Option<nat> {
    if slot == [] then None
    else if slot[|slot| - 1] == 'a' && slot[0] != 'a' then Some(1)
    else if slot[|slot| - 1] == 'b' then Some(2)
    else if slot[0] == 'a' then Some(0)
    else None
  }

  // ---- rows ----

  /** slot_id is the primary key of the table. */
  ghost predicate UniqueSlots(cells: seq<Cell>) {
    forall i, j :: 0 <= i < j < |cells| ==> cells[i].slot != cells[j].slot
  }

  predicate IsActive(cells: seq<Cell>, i: int) {
    0 <= i < |cells| && cells[i].status == Active
  }

  /** At most one active cell in every group of slots. */
  ghost predicate AtMostOneActive(cells: seq<Cell>) {
    forall i, j :: IsActive(cells, i) && IsActive(cells, j) && i != j ==>
      GroupKey(cells[i].slot) == None || GroupKey(cells[i].slot) != GroupKey(cells[j].slot)
  }

  /** Same rows, up to pointers, statuses and counters. */
  ghost predicate SameSlots(a: seq<Cell>, b: seq<Cell>) {
    |a| == |b| && forall i :: 0 <= i < |a| ==> a[i].slot == b[i].slot && a[i].channel == b[i].channel
  }

  ghost predicate SameStatuses(a: seq<Cell>, b: seq<Cell>) {
    SameSlots(a, b) && forall i :: 0 <= i < |a| ==> a[i].status == b[i].status
  }

  function ActiveIndices(cells: seq<Cell>): (r: seq<int>)
    ensures forall i :: i in r <==> IsActive(cells, i)
    ensures forall i, j :: 0 <= i < j < |r| ==> r[i] < r[j]
  {
    if cells == [] then []
    else
      var n := |cells| - 1;
      var front := ActiveIndices(cells[..n]);
      assert forall k :: 0 <= k < |front| ==> front[k] in front && IsActive(cells[..n], front[k]);
      if cells[n].status == Active then front + [n] else front
  }

  function ChannelOf(cells: seq<Cell>, i: int): int {
    if 0 <= i < |cells| then cells[i].channel else 0
  }

  function PointerOf(cells: seq<Cell>, i: int): int {
    if 0 <= i < |cells| then cells[i].next else 0
  }

  ghost predicate DistinctChannels(cells: seq<Cell>, s: seq<int>) {
    forall i, j :: i in s && j in s && i != j ==> ChannelOf(cells, i) != ChannelOf(cells, j)
  }

  /** The pointer of the first active cell that carries a channel; other channels point to themselves. */
  function NextOf(cells: seq<Cell>, channel: int): int {
    if cells == [] then channel
    else if cells[0].status == Active && cells[0].channel == channel then cells[0].next
    else NextOf(cells[1..], channel)
  }

  lemma {:induction false} NextOfActive(cells: seq<Cell>, i: nat)
    requires IsActive(cells, i)
    requires forall j :: IsActive(cells, j) && j != i ==> cells[j].channel != cells[i].channel
    ensures NextOf(cells, cells[i].channel) == cells[i].next
  {
    if i > 0 {
      assert IsActive(cells, 0) ==> cells[0].channel != cells[i].channel;
      forall j | IsActive(cells[1..], j) && j != i - 1
        ensures cells[1..][j].channel != cells[1..][i - 1].channel
      {
        assert IsActive(cells, j + 1);
      }
      NextOfActive(cells[1..], i - 1);
    }
  }

  // ---- updates ----

  function Set<T>(current: T, field: Option<T>): T {
    if field.Some? then field.value else current
  }

  function Apply(c: Cell, u: Update): Cell {
    c.(status := Set(c.status, u.status), next := Set(c.next, u.next), fileCount := Set(c.fileCount, u.fileCount),
       started := if u.started.Some? then u.started else c.started,
       degradeCount := Set(c.degradeCount, u.degradeCount), demotedTo := Set(c.demotedTo, u.demotedTo))
  }

  /** UPDATE cells_local SET ... WHERE slot_id = ? */
  function UpdateRows(cells: seq<Cell>, u: Update): (r: seq<Cell>)
    ensures SameSlots(r, cells)
    ensures forall i :: 0 <= i < |cells| ==> r[i] == if cells[i].slot == u.slot then Apply(cells[i], u) else cells[i]
  {
    seq(|cells|, i requires 0 <= i < |cells| => if cells[i].slot == u.slot then Apply(cells[i], u) else cells[i])
  }

  /** A batch is applied row update by row update, in list order. */
  function UpdateAll(cells: seq<Cell>, batch: seq<Update>): (r: seq<Cell>)
    ensures SameSlots(r, cells)
  {
    if batch == [] then cells else UpdateRows(UpdateAll(cells, batch[..|batch| - 1]), batch[|batch| - 1])
  }

  /** What a batch makes of a row. */
  function RowAfter(batch: seq<Update>, c: Cell): (r: Cell)
    ensures r.slot == c.slot && r.channel == c.channel
  {
    if batch == [] then c
    else
      var r, u := RowAfter(batch[..|batch| - 1], c), batch[|batch| - 1];
      if u.slot == c.slot then Apply(r, u) else r
  }

  lemma {:induction false} UpdateAllRow(cells: seq<Cell>, batch: seq<Update>, i: nat)
    requires i < |cells|
    ensures UpdateAll(cells, batch)[i] == RowAfter(batch, cells[i])
  {
    if batch != [] {
      UpdateAllRow(cells, batch[..|batch| - 1], i);
    }
  }

  lemma RowAfterSnoc(batch: seq<Update>, u: Update, c: Cell)
    ensures RowAfter(batch + [u], c) == if u.slot == c.slot then Apply(RowAfter(batch, c), u) else RowAfter(batch, c)
  {
    assert (batch + [u])[..|batch|] == batch;
  }

  lemma {:induction false} RowAfterConcat(a: seq<Update>, b: seq<Update>, c: Cell)
    ensures RowAfter(a + b, c) == RowAfter(b, RowAfter(a, c))
  {
    if b == [] {
      assert a + b == a;
    } else {
      RowAfterConcat(a, b[..|b| - 1], c);
      assert (a + b)[..|a + b| - 1] == a + b[..|b| - 1];
    }
  }

  /** The pointer a batch leaves in a row. */
  function PointerAfter(batch: seq<Update>, slot: string, before: int): int {
    if batch == [] then before
    else
      var u := batch[|batch| - 1];
      if u.slot == slot && u.next.Some? then u.next.value else PointerAfter(batch[..|batch| - 1], slot, before)
  }

  lemma {:induction false} UpdateAllPointer(cells: seq<Cell>, batch: seq<Update>, i: nat)
    requires i < |cells|
    ensures UpdateAll(cells, batch)[i].next == PointerAfter(batch, cells[i].slot, cells[i].next)
  {
    if batch != [] {
      UpdateAllPointer(cells, batch[..|batch| - 1], i);
    }
  }

  lemma PointerAfterSnoc(batch: seq<Update>, u: Update, slot: string, before: int)
    ensures PointerAfter(batch + [u], slot, before)
         == if u.slot == slot && u.next.Some? then u.next.value else PointerAfter(batch, slot, before)
  {
    assert (batch + [u])[..|batch|] == batch;
  }

  lemma UpdateAllSnoc(cells: seq<Cell>, batch: seq<Update>, u: Update)
    ensures UpdateAll(cells, batch + [u]) == UpdateRows(UpdateAll(cells, batch), u)
  {
    assert (batch + [u])[..|batch|] == batch;
  }

  // ---- counters ----

  /** The fields of a row that are neither its status nor its pointer. */
  datatype Counters = Counters(fileCount: int, started: Option<int>, degradeCount: int, demotedTo: int)

  function CountersOf(c: Cell): Counters {
    Counters(c.fileCount, c.started, c.degradeCount, c.demotedTo)
  }

  /** Same rows with the same counters. */
  ghost predicate SameCounters(a: seq<Cell>, b: seq<Cell>) {
    |a| == |b| && forall i :: 0 <= i < |a| ==> CountersOf(a[i]) == CountersOf(b[i])
  }

  /** The update sets the pointer and nothing else. */
  predicate OnlyNext(u: Update) {
    u == Update(u.slot, None, u.next, None, None, None, None)
  }

  lemma {:induction false} UpdateAllKeepsCounters(cells: seq<Cell>, batch: seq<Update>)
    requires forall k :: 0 <= k < |batch| ==> OnlyNext(batch[k])
    ensures SameStatuses(UpdateAll(cells, batch), cells) && SameCounters(UpdateAll(cells, batch), cells)
  {
    if batch != [] {
      assert OnlyNext(batch[|batch| - 1]);
      UpdateAllKeepsCounters(cells, batch[..|batch| - 1]);
    }
  }
}
