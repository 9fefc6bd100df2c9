/** The topology generator: pairs the channels of n accounts into groups by a sliding window with one
    cursor per account, and links the groups' active channels into a ring. */
module Topology {
  import opened Ring
  import opened Text
  import opened Cells
  import opened Rotation

  datatype Account = Account(name: string, channels: seq<int>)
  datatype Group = Group(id: nat, active: int, shadow1: int, shadow2: int)
  datatype Error = NoAccounts | UnequalChannelCounts | NotMultipleOfThree | DuplicateChannel
  datatype Result = Generated(groups: seq<Group>, cells: seq<Cell>) | Failed(error: Error)

  // ---- which account each read of a pool goes to ----

  /** Pool reads are numbered 0, 1, 2, ... in program order: read 3h + r takes role r of group h + 1. */
  function AccountOfRead(n: nat, t: nat): (j: nat)
    requires n > 0
    ensures j < n
  {
    (t / 3 + t % 3) % n
  }

  /** How often account j is read among the first k reads: its cursor after k reads. */
  function Uses(n: nat, j: nat, k: nat): nat
    requires n > 0
  {
    if k == 0 then 0 else Uses(n, j, k - 1) + if AccountOfRead(n, k - 1) == j then 1 else 0
  }

  /** How many of 0, ..., m - 1 are congruent to j. */
  function Hits(n: nat, j: nat, m: nat): nat
    requires n > 0
  {
    if m == 0 then 0 else Hits(n, j, m - 1) + if (m - 1) % n == j then 1 else 0
  }

  /** How many of the first m groups take role r from account j. */
  function RoleUses(n: nat, j: nat, r: nat, m: nat): nat
    requires n > 0
  {
    if m == 0 then 0 else RoleUses(n, j, r, m - 1) + if (m - 1 + r) % n == j then 1 else 0
  }

  lemma {:induction false} HitsBelow(n: nat, j: nat, m: nat)
    requires j < n && m <= n
    ensures Hits(n, j, m) == if j < m then 1 else 0
  {
    if m > 0 {
      HitsBelow(n, j, m - 1);
      ModUnique(m - 1, n, 0, m - 1);
    }
  }

  /** Any n consecutive numbers hold exactly one congruent to j. */
  lemma {:induction false} HitsPeriod(n: nat, j: nat, a: nat)
    requires j < n
    ensures Hits(n, j, a + n) == Hits(n, j, a) + 1
  {
    if a == 0 {
      HitsBelow(n, j, n);
    } else {
      HitsPeriod(n, j, a - 1);
      OneRoundOn(a - 1, n);
    }
  }

  lemma {:induction false} OneRoundOn(a: nat, n: nat)
    requires n > 0
    ensures (a + n) % n == a % n
  {
    ModUnique(a + n, n, a / n + 1, a % n);
  }

  lemma {:induction false} RoleUsesPeriod(n: nat, j: nat, r: nat, q: nat)
    requires j < n
    ensures RoleUses(n, j, r, n * q) == q
  {
    RoleUsesHits(n, j, r, n * q);
    HitsPeriods(n, j, r, q);
  }

  lemma {:induction false} RoleUsesHits(n: nat, j: nat, r: nat, m: nat)
    requires j < n
    ensures RoleUses(n, j, r, m) == Hits(n, j, m + r) - Hits(n, j, r)
  {
    if m > 0 {
      RoleUsesHits(n, j, r, m - 1);
    }
  }

  lemma {:induction false} HitsPeriods(n: nat, j: nat, r: nat, q: nat)
    requires j < n
    ensures Hits(n, j, n * q + r) == Hits(n, j, r) + q
  {
    if q > 0 {
      HitsPeriods(n, j, r, q - 1);
      OnePeriodMore(n, q, r);
      HitsPeriod(n, j, n * (q - 1) + r);
    }
  }

  lemma OnePeriodMore(n: nat, q: nat, r: nat)
    requires q > 0
    ensures n * q + r == n * (q - 1) + r + n && n * (q - 1) >= 0
  {
  }

  lemma ThreeReads(n: nat, j: nat, k: nat)
    requires n > 0
    ensures Uses(n, j, k + 3) == Uses(n, j, k) + (if AccountOfRead(n, k) == j then 1 else 0)
      + (if AccountOfRead(n, k + 1) == j then 1 else 0) + (if AccountOfRead(n, k + 2) == j then 1 else 0)
  {
    assert Uses(n, j, k + 1) == Uses(n, j, k) + if AccountOfRead(n, k) == j then 1 else 0;
    assert Uses(n, j, k + 2) == Uses(n, j, k + 1) + if AccountOfRead(n, k + 1) == j then 1 else 0;
  }

  /** Three reads a group, one per role. */
  lemma {:induction false} UsesByRole(n: nat, j: nat, m: nat)
    requires n > 0
    ensures Uses(n, j, 3 * m) == RoleUses(n, j, 0, m) + RoleUses(n, j, 1, m) + RoleUses(n, j, 2, m)
  {
    if m > 0 {
      UsesByRole(n, j, m - 1);
      GroupReads(n, m - 1);
      ThreeReads(n, j, 3 * (m - 1));
    }
  }

  lemma GroupReads(n: nat, h: nat)
    requires n > 0
    ensures AccountOfRead(n, 3 * h) == h % n
    ensures AccountOfRead(n, 3 * h + 1) == (h + 1) % n
    ensures AccountOfRead(n, 3 * h + 2) == (h + 2) % n
  {
    ThirdsOf(h, 0);
    ThirdsOf(h, 1);
    ThirdsOf(h, 2);
  }

  lemma ThirdsOf(h: nat, r: nat)
    requires r < 3
    ensures (3 * h + r) / 3 == h && (3 * h + r) % 3 == r
  {
  }

  /** With c channels an account, 3 | c, all n * c / 3 groups read every account exactly c times,
      c / 3 times in each role. */
  lemma {:induction false} UsesTotal(n: nat, c: nat, j: nat)
    requires j < n && c % 3 == 0
    ensures (n * c) / 3 == n * (c / 3)
    ensures forall r :: 0 <= r < 3 ==> RoleUses(n, j, r, (n * c) / 3) == c / 3
    ensures Uses(n, j, 3 * ((n * c) / 3)) == c
  {
    var q := c / 3;
    assert n * c == 3 * (n * q) by {
      assert c == 3 * q;
    }
    UsesByRole(n, j, n * q);
    forall r | 0 <= r < 3
      ensures RoleUses(n, j, r, n * q) == q
    {
      RoleUsesPeriod(n, j, r, q);
    }
  }

  lemma {:induction false} UsesMonotone(n: nat, j: nat, k: nat, k': nat)
    requires n > 0 && k <= k'
    ensures Uses(n, j, k) <= Uses(n, j, k')
  {
    if k < k' {
      UsesMonotone(n, j, k, k' - 1);
    }
  }

  /** No read goes past a pool: before every read the cursor is below the number of channels. */
  lemma {:induction false} ReadInPool(n: nat, c: nat, t: nat)
    requires n > 0 && c % 3 == 0 && t < 3 * ((n * c) / 3)
    ensures Uses(n, AccountOfRead(n, t), t) < c
  {
    var j := AccountOfRead(n, t);
    UsesTotal(n, c, j);
    UsesMonotone(n, j, t + 1, 3 * ((n * c) / 3));
  }

  lemma {:induction false} FindRead(n: nat, j: nat, p: nat, k: nat) returns (t: nat)
    requires n > 0 && p < Uses(n, j, k)
    ensures t < k && AccountOfRead(n, t) == j && Uses(n, j, t) == p
  {
    if p < Uses(n, j, k - 1) {
      t := FindRead(n, j, p, k - 1);
    } else {
      t := k - 1;
    }
  }

  /** Every position of every pool is read, and by exactly one read. */
  lemma EveryPositionReadOnce(n: nat, c: nat, j: nat, p: nat)
    requires j < n && c % 3 == 0 && p < c
    ensures exists t :: 0 <= t < 3 * ((n * c) / 3) && ReadsPosition(n, t, j, p)
    ensures forall t, t' :: 0 <= t < t' && ReadsPosition(n, t, j, p) ==> !ReadsPosition(n, t', j, p)
  {
    UsesTotal(n, c, j);
    var t := FindRead(n, j, p, 3 * ((n * c) / 3));
    assert ReadsPosition(n, t, j, p);
    forall t, t' | 0 <= t < t' && ReadsPosition(n, t, j, p)
      ensures !ReadsPosition(n, t', j, p)
    {
      UsesMonotone(n, j, t + 1, t');
    }
  }

  predicate ReadsPosition(n: nat, t: int, j: nat, p: nat)
    requires n > 0
  {
    t >= 0 && AccountOfRead(n, t) == j && Uses(n, j, t) == p
  }

  /** Every group draws on three different accounts exactly when there are at least three accounts;
      the generator does not require that. */
  lemma {:induction false} ThreeAccountsPerGroup(n: nat, h: nat)
    requires n > 0
    ensures (forall lost: nat :: RolesLost(n, h, lost) <= 1) <==> n >= 3
  {
    GroupReads(n, h);
    NextAccount(h, n);
    NextAccount(h + 1, n);
    assert n < 3 ==> RolesLost(n, h, h % n) >= 2;
  }

  lemma {:induction false} NextAccount(h: nat, n: nat)
    requires n > 0
    ensures h % n < n && (h + 1) % n == if h % n + 1 < n then h % n + 1 else 0
  {
    var q, r := h / n, h % n;
    DivMod(h, n);
    if r + 1 < n {
      ModUnique(h + 1, n, q, r + 1);
    } else {
      ModUnique(h + 1, n, q + 1, 0);
    }
  }

  lemma DivMod(a: nat, n: nat)
    requires n > 0
    ensures a == a / n * n + a % n && a % n < n
  {
  }

  /** How many of a group's three channels go when one account is lost. */
  function RolesLost(n: nat, h: nat, lost: nat): nat
    requires n > 0
  {
    (if AccountOfRead(n, 3 * h) == lost then 1 else 0) + (if AccountOfRead(n, 3 * h + 1) == lost then 1 else 0)
    + (if AccountOfRead(n, 3 * h + 2) == lost then 1 else 0)
  }

  // ---- the generator ----

  function AllChannels(accounts: seq<Account>): seq<int> {
    if accounts == [] then [] else accounts[0].channels + AllChannels(accounts[1..])
  }

  function AllIds(accounts: seq<Account>, r100: int, fallback: seq<int>): seq<int> {
    AllChannels(accounts) + (if r100 != 0 then [r100] else []) + fallback
  }

  predicate EqualCounts(accounts: seq<Account>, c: nat) {
    forall j :: 0 <= j < |accounts| ==> |accounts[j].channels| == c
  }

  /** The error the checks end with, in the order they are made, or None. */
  function Check(accounts: seq<Account>, r100: int, fallback: seq<int>): Option<Error> {
    if accounts == [] then Some(NoAccounts)
    else if !EqualCounts(accounts, |accounts[0].channels|) then Some(UnequalChannelCounts)
    else if |accounts[0].channels| % 3 != 0 then Some(NotMultipleOfThree)
    else if !NoDup(AllIds(accounts, r100, fallback)) then Some(DuplicateChannel)
    else None
  }

  /** Accounts that pass the checks, with c channels each. */
  ghost predicate Usable(accounts: seq<Account>, c: nat) {
    accounts != [] && EqualCounts(accounts, c) && c % 3 == 0 && NoDup(AllChannels(accounts))
  }

  /** The channel a pool read returns. */
  function ChannelOfRead(accounts: seq<Account>, c: nat, t: nat): int
    requires accounts != [] && EqualCounts(accounts, c) && c % 3 == 0
    requires t < 3 * ((|accounts| * c) / 3)
  {
    ReadInPool(|accounts|, c, t);
    accounts[AccountOfRead(|accounts|, t)].channels[Uses(|accounts|, AccountOfRead(|accounts|, t), t)]
  }

  /** Group h takes the channels of reads 3h, 3h + 1 and 3h + 2. */
  ghost predicate Paired(accounts: seq<Account>, c: nat, groups: seq<Group>)
    requires accounts != [] && EqualCounts(accounts, c) && c % 3 == 0
  {
    && |groups| <= (|accounts| * c) / 3
    && forall h :: 0 <= h < |groups| ==>
      groups[h] == Group(h + 1, ChannelOfRead(accounts, c, 3 * h), ChannelOfRead(accounts, c, 3 * h + 1),
                         ChannelOfRead(accounts, c, 3 * h + 2))
  }

  lemma {:induction false} PairedSnoc(accounts: seq<Account>, c: nat, groups: seq<Group>, a: int, s1: int, s2: int)
    requires accounts != [] && EqualCounts(accounts, c) && c % 3 == 0 && Paired(accounts, c, groups) && |groups| < (|accounts| * c) / 3
    requires a == ChannelOfRead(accounts, c, 3 * |groups|) && s1 == ChannelOfRead(accounts, c, 3 * |groups| + 1)
    requires s2 == ChannelOfRead(accounts, c, 3 * |groups| + 2)
    ensures Paired(accounts, c, groups + [Group(|groups| + 1, a, s1, s2)])
  {
  }

  /** The cursor array after k reads. */
  ghost predicate Cursors(n: nat, cursors: seq<nat>, k: nat)
    requires n > 0
  {
    |cursors| == n && forall j :: 0 <= j < n ==> cursors[j] == Uses(n, j, k)
  }

  method PairGroups(accounts: seq<Account>, c: nat) returns (groups: seq<Group>)
    requires accounts != [] && EqualCounts(accounts, c) && c % 3 == 0
    ensures |groups| == (|accounts| * c) / 3 && Paired(accounts, c, groups)
  {
    var n := |accounts|;
    var cursors := new nat[n](_ => 0);
    groups := [];
    var groupCount := (n * c) / 3;
    for g := 1 to groupCount + 1
      invariant |groups| == g - 1 && Paired(accounts, c, groups)
      invariant Cursors(n, cursors[..], 3 * (g - 1))
    {
      var aChannel, s1Channel, s2Channel := TakeGroup(accounts, c, cursors, g);
      PairedSnoc(accounts, c, groups, aChannel, s1Channel, s2Channel);
      groups := groups + [Group(g, aChannel, s1Channel, s2Channel)];
    }
    UsesTotal(n, c, 0);
  }

  /** The window of group g: accounts g - 1, g and g + 1, round the list. */
  method TakeGroup(accounts: seq<Account>, c: nat, cursors: array<nat>, g: nat) returns (a: int, s1: int, s2: int)
    requires accounts != [] && EqualCounts(accounts, c) && c % 3 == 0
    requires 0 < g <= (|accounts| * c) / 3 && Cursors(|accounts|, cursors[..], 3 * (g - 1))
    modifies cursors
    ensures Cursors(|accounts|, cursors[..], 3 * g)
    ensures a == ChannelOfRead(accounts, c, 3 * (g - 1)) && s1 == ChannelOfRead(accounts, c, 3 * (g - 1) + 1)
    ensures s2 == ChannelOfRead(accounts, c, 3 * (g - 1) + 2)
  {
    var n := |accounts|;
    GroupReads(n, g - 1);
    a := TakeChannel(accounts, c, cursors, 3 * (g - 1), (g - 1) % n);
    s1 := TakeChannel(accounts, c, cursors, 3 * (g - 1) + 1, g % n);
    s2 := TakeChannel(accounts, c, cursors, 3 * (g - 1) + 2, (g + 1) % n);
  }

  /** Reads account j's pool at its cursor and moves the cursor on. */
  method TakeChannel(accounts: seq<Account>, c: nat, cursors: array<nat>, ghost t: nat, j: nat) returns (channel: int)
    requires accounts != [] && EqualCounts(accounts, c) && c % 3 == 0
    requires t < 3 * ((|accounts| * c) / 3) && j == AccountOfRead(|accounts|, t)
    requires Cursors(|accounts|, cursors[..], t)
    modifies cursors
    ensures Cursors(|accounts|, cursors[..], t + 1)
    ensures channel == ChannelOfRead(accounts, c, t)
  {
    ReadInPool(|accounts|, c, t);
    assert cursors[..][j] == Uses(|accounts|, j, t);
    channel := accounts[j].channels[cursors[j]];
    cursors[j] := cursors[j] + 1;
  }

  // ---- slots and ring ----

  function ActiveSlot(g: nat): string { "a" + Decimal(g) }
  function Shadow1Slot(g: nat): string { "s" + Decimal(g) + "a" }
  function Shadow2Slot(g: nat): string { "s" + Decimal(g) + "b" }

  function NewCell(slot: string, channel: int, status: Status, next: int): Cell {
    Cell(slot, channel, status, next, 0, None, 0, 0)
  }

  /** Where group h's active row points once the ring is filled for the groups below m. */
  function NextActive(groups: seq<Group>, m: nat, h: nat): int {
    if h < m && h < |groups| then groups[(h + 1) % |groups|].active else 0
  }

  ghost predicate RowsOfGroup(groups: seq<Group>, cells: seq<Cell>, m: nat, h: nat) {
    && h < |groups| && 3 * h + 3 <= |cells|
    && cells[3 * h] == NewCell(ActiveSlot(h + 1), groups[h].active, Active, NextActive(groups, m, h))
    && cells[3 * h + 1] == NewCell(Shadow1Slot(h + 1), groups[h].shadow1, Shadow1, 0)
    && cells[3 * h + 2] == NewCell(Shadow2Slot(h + 1), groups[h].shadow2, Shadow2, groups[h].active)
  }

  /** Three rows a group; active rows of groups below m already point at the next group's active channel. */
  ghost predicate LaidOut(groups: seq<Group>, cells: seq<Cell>, m: nat) {
    |cells| == 3 * |groups| && forall h :: 0 <= h < |groups| ==> RowsOfGroup(groups, cells, m, h)
  }

  ghost predicate Numbered(groups: seq<Group>) {
    forall h :: 0 <= h < |groups| ==> groups[h].id == h + 1
  }

  method BuildSlots(groups: seq<Group>) returns (cells: seq<Cell>, activeIds: seq<(string, int)>)
    requires Numbered(groups)
    ensures LaidOut(groups, cells, 0)
    ensures |activeIds| == |groups| && forall k :: 0 <= k < |groups| ==> activeIds[k] == (ActiveSlot(k + 1), groups[k].active)
  {
    cells, activeIds := [], [];
    for h := 0 to |groups|
      invariant |cells| == 3 * h && forall k :: 0 <= k < h ==> RowsOfGroup(groups, cells, 0, k)
      invariant |activeIds| == h && forall k :: 0 <= k < h ==> activeIds[k] == (ActiveSlot(k + 1), groups[k].active)
    {
      var g := groups[h];
      var rows := [NewCell(ActiveSlot(g.id), g.active, Active, 0), NewCell(Shadow1Slot(g.id), g.shadow1, Shadow1, 0),
                   NewCell(Shadow2Slot(g.id), g.shadow2, Shadow2, g.active)];
      RowsStay(groups, cells, rows, h);
      cells := cells + rows;
      activeIds := activeIds + [(ActiveSlot(g.id), g.active)];
    }
  }

  lemma RowsStay(groups: seq<Group>, cells: seq<Cell>, more: seq<Cell>, m: nat)
    requires forall k :: 0 <= k < m ==> RowsOfGroup(groups, cells, 0, k)
    ensures forall k :: 0 <= k < m ==> RowsOfGroup(groups, cells + more, 0, k)
  {
    forall k | 0 <= k < m ensures RowsOfGroup(groups, cells + more, 0, k) {
      assert RowsOfGroup(groups, cells, 0, k);
    }
  }

  method FillRing(groups: seq<Group>, cells0: seq<Cell>, activeIds: seq<(string, int)>) returns (cells: seq<Cell>)
    requires LaidOut(groups, cells0, 0)
    requires |activeIds| == |groups| && forall k :: 0 <= k < |groups| ==> activeIds[k] == (ActiveSlot(k + 1), groups[k].active)
    ensures LaidOut(groups, cells, |groups|)
  {
    cells := cells0;
    for i := 0 to |activeIds|
      invariant LaidOut(groups, cells, i)
    {
      var (slot, _) := activeIds[i];
      var (_, nextChannel) := activeIds[(i + 1) % |activeIds|];
      assert RowsOfGroup(groups, cells, i, i);
      var k := 0;
      while cells[k].slot != slot
        invariant 0 <= k <= 3 * i
        decreases 3 * i - k
      {
        k := k + 1;
      }
      ActiveSlotInRow(groups, cells, i, i, k);
      LinkGroup(groups, cells, i);
      cells := cells[k := cells[k].(next := nextChannel)];
    }
  }

  lemma LinkGroup(groups: seq<Group>, cells: seq<Cell>, i: nat)
    requires LaidOut(groups, cells, i) && i < |groups|
    ensures LaidOut(groups, cells[3 * i := cells[3 * i].(next := groups[(i + 1) % |groups|].active)], i + 1)
  {
    assert RowsOfGroup(groups, cells, i, i);
    var linked := cells[3 * i := cells[3 * i].(next := groups[(i + 1) % |groups|].active)];
    var m := i + 1;
    forall h | 0 <= h < |groups|
      ensures RowsOfGroup(groups, linked, m, h)
    {
      assert RowsOfGroup(groups, cells, i, h);
    }
  }

  /** A row's slot name gives its group and its place in the group. */
  lemma RowSlot(groups: seq<Group>, cells: seq<Cell>, m: nat, k: nat)
    requires LaidOut(groups, cells, m) && k < |cells|
    ensures GroupKey(cells[k].slot) == Some(Decimal(k / 3 + 1)) && Position(cells[k].slot) == Some(k % 3)
    ensures cells[k].status == if k % 3 == 0 then Active else if k % 3 == 1 then Shadow1 else Shadow2
  {
    var h := k / 3;
    assert RowsOfGroup(groups, cells, m, h);
    GroupKeyOfSlots(h + 1);
    PositionOfSlots(h + 1);
    assert k == 3 * h || k == 3 * h + 1 || k == 3 * h + 2;
  }

  lemma PositionOfSlots(g: nat)
    ensures Position(ActiveSlot(g)) == Some(0) && Position(Shadow1Slot(g)) == Some(1) && Position(Shadow2Slot(g)) == Some(2)
  {
    var d := Decimal(g);
    assert IsDigit(d[|d| - 1]) && ActiveSlot(g)[|d|] == d[|d| - 1];
  }

  /** No two rows have the same slot name. */
  lemma SlotsDiffer(groups: seq<Group>, cells: seq<Cell>, m: nat, i: nat, k: nat)
    requires LaidOut(groups, cells, m) && i < |cells| && k < |cells| && i != k
    ensures cells[i].slot != cells[k].slot
    ensures cells[i].status == cells[k].status ==> GroupKey(cells[i].slot) != GroupKey(cells[k].slot)
  {
    RowSlot(groups, cells, m, i);
    RowSlot(groups, cells, m, k);
    DecimalInjective(i / 3 + 1, k / 3 + 1);
  }

  /** The slot name of group i's active row occurs in row 3i only. */
  lemma ActiveSlotInRow(groups: seq<Group>, cells: seq<Cell>, m: nat, i: nat, k: nat)
    requires LaidOut(groups, cells, m) && i < |groups| && k < |cells|
    requires cells[k].slot == ActiveSlot(i + 1)
    ensures k == 3 * i
  {
    assert RowsOfGroup(groups, cells, m, i);
    if k != 3 * i {
      SlotsDiffer(groups, cells, m, 3 * i, k);
    }
  }

  lemma GroupKeyOfSlots(g: nat)
    ensures GroupKey(ActiveSlot(g)) == GroupKey(Shadow1Slot(g)) == GroupKey(Shadow2Slot(g)) == Some(Decimal(g))
  {
    KeyOf('a', Decimal(g), "");
    KeyOf('s', Decimal(g), "a");
    KeyOf('s', Decimal(g), "b");
    assert ActiveSlot(g) == ['a'] + Decimal(g) + "";
  }

  lemma KeyOf(first: char, d: string, rest: string)
    requires first in {'a', 's'} && d != "" && AllDigits(d) && (rest == "" || !IsDigit(rest[0]))
    ensures GroupKey([first] + d + rest) == Some(d)
  {
    var slot := [first] + d + rest;
    DigitRunOf(d, rest);
    assert slot[1..] == d + rest && slot[1] == d[0] && IsDigit(d[0]);
  }

  lemma {:induction false} DigitRunOf(d: string, rest: string)
    requires AllDigits(d) && (rest == "" || !IsDigit(rest[0]))
    ensures DigitRun(d + rest) == d
  {
    if d != [] {
      DigitRunOf(d[1..], rest);
      assert (d + rest)[1..] == d[1..] + rest;
    } else {
      assert d + rest == rest;
    }
  }

  // ---- what the generated topology satisfies ----

  lemma {:induction false} ChannelsDiffer(accounts: seq<Account>, j: nat, p: nat, j': nat, p': nat)
    requires NoDup(AllChannels(accounts))
    requires j < |accounts| && p < |accounts[j].channels| && j' < |accounts| && p' < |accounts[j'].channels|
    requires j < j' || (j == j' && p < p')
    ensures accounts[j].channels[p] != accounts[j'].channels[p']
  {
    var first, rest := accounts[0].channels, AllChannels(accounts[1..]);
    var all := AllChannels(accounts);
    assert all == first + rest;
    if j == 0 && j' == 0 {
      assert all[p] == first[p] && all[p'] == first[p'];
    } else if j == 0 {
      ChannelListed(accounts[1..], j' - 1, p');
      var i :| 0 <= i < |rest| && rest[i] == accounts[j'].channels[p'];
      assert all[p] == first[p] && all[|first| + i] == rest[i];
    } else {
      assert forall i :: 0 <= i < |rest| ==> rest[i] == all[|first| + i];
      ChannelsDiffer(accounts[1..], j - 1, p, j' - 1, p');
    }
  }

  lemma {:induction false} ChannelListed(accounts: seq<Account>, j: nat, p: nat)
    requires j < |accounts| && p < |accounts[j].channels|
    ensures accounts[j].channels[p] in AllChannels(accounts)
  {
    if j > 0 {
      ChannelListed(accounts[1..], j - 1, p);
    }
  }

  /** Different reads return different channels: no channel lands in two slots. */
  lemma ReadsDiffer(accounts: seq<Account>, c: nat, t: nat, t': nat)
    requires Usable(accounts, c) && t < t' < 3 * ((|accounts| * c) / 3)
    ensures ChannelOfRead(accounts, c, t) != ChannelOfRead(accounts, c, t')
  {
    var n := |accounts|;
    var j, j' := AccountOfRead(n, t), AccountOfRead(n, t');
    ReadInPool(n, c, t);
    ReadInPool(n, c, t');
    if j == j' {
      UsesMonotone(n, j, t + 1, t');
      ChannelsDiffer(accounts, j, Uses(n, j, t), j', Uses(n, j', t'));
    } else if j < j' {
      ChannelsDiffer(accounts, j, Uses(n, j, t), j', Uses(n, j', t'));
    } else {
      ChannelsDiffer(accounts, j', Uses(n, j', t'), j, Uses(n, j, t));
    }
  }

  /** Every channel of every account is the channel of exactly one read. */
  lemma ReadOfChannel(accounts: seq<Account>, c: nat, j: nat, p: nat) returns (t: nat)
    requires Usable(accounts, c) && j < |accounts| && p < c
    ensures t < 3 * ((|accounts| * c) / 3) && ChannelOfRead(accounts, c, t) == accounts[j].channels[p]
    ensures forall t' :: 0 <= t' < 3 * ((|accounts| * c) / 3) && t' != t ==> ChannelOfRead(accounts, c, t') != accounts[j].channels[p]
  {
    UsesTotal(|accounts|, c, j);
    t := FindRead(|accounts|, j, p, 3 * ((|accounts| * c) / 3));
    forall t' | 0 <= t' < 3 * ((|accounts| * c) / 3) && t' != t
      ensures ChannelOfRead(accounts, c, t') != accounts[j].channels[p]
    {
      if t < t' { ReadsDiffer(accounts, c, t, t'); } else { ReadsDiffer(accounts, c, t', t); }
    }
  }

  /** The r100 channel and its fallbacks become rows outside the ring; fallbacks only with an r100 channel. */
  function R100Rows(r100: int, fallback: seq<int>): seq<Cell> {
    var ids := [r100] + fallback;
    if r100 == 0 then [] else seq(|ids|, k requires 0 <= k < |ids| => R100Row(ids[k], k))
  }

  function R100Row(channel: int, k: nat): Cell {
    if k == 0 then NewCell("r100", channel, R100, 0)
    else NewCell("r100-fb" + Decimal(k), channel, Other("r100-fallback"), 0)
  }

  /** The finished table: the group rows with their ring filled, then the rows outside the ring. */
  ghost predicate Layout(accounts: seq<Account>, groups: seq<Group>, cells: seq<Cell>, r100: int, fallback: seq<int>)
    requires Check(accounts, r100, fallback) == None
  {
    var c := |accounts[0].channels|;
    && |groups| == (|accounts| * c) / 3 && Paired(accounts, c, groups)
    && 3 * |groups| <= |cells| && LaidOut(groups, cells[..3 * |groups|], |groups|)
    && cells[3 * |groups|..] == R100Rows(r100, fallback)
  }

  lemma CheckedUsable(accounts: seq<Account>, r100: int, fallback: seq<int>)
    requires Check(accounts, r100, fallback) == None
    ensures Usable(accounts, |accounts[0].channels|)
  {
    var all := AllIds(accounts, r100, fallback);
    assert forall i :: 0 <= i < |AllChannels(accounts)| ==> all[i] == AllChannels(accounts)[i];
  }

  /** Row i of the groups carries the channel of read i. */
  lemma RowChannel(accounts: seq<Account>, groups: seq<Group>, cells: seq<Cell>, r100: int, fallback: seq<int>, i: nat)
    requires Check(accounts, r100, fallback) == None && Layout(accounts, groups, cells, r100, fallback) && i < 3 * |groups|
    ensures cells[i].channel == ChannelOfRead(accounts, |accounts[0].channels|, i)
  {
    var part := cells[..3 * |groups|];
    GroupRowChannel(groups, part, |groups|, i);
    assert part[i] == cells[i];
  }

  lemma GroupRowChannel(groups: seq<Group>, part: seq<Cell>, m: nat, i: nat)
    requires LaidOut(groups, part, m) && i < |part|
    ensures var g := groups[i / 3];
      part[i].channel == if i % 3 == 0 then g.active else if i % 3 == 1 then g.shadow1 else g.shadow2
  {
    assert RowsOfGroup(groups, part, m, i / 3);
    assert i == 3 * (i / 3) + i % 3;
  }

  /** A row outside the groups has the r100 channel or a fallback, and no channel of an account. */
  lemma OutsideChannel(accounts: seq<Account>, r100: int, fallback: seq<int>, k: nat, j: nat, p: nat)
    requires NoDup(AllIds(accounts, r100, fallback)) && k < |R100Rows(r100, fallback)|
    requires j < |accounts| && p < |accounts[j].channels|
    ensures R100Rows(r100, fallback)[k].channel != accounts[j].channels[p]
  {
    ChannelListed(accounts, j, p);
    OutsideId(r100, fallback, k);
    assert AllIds(accounts, r100, fallback) == AllChannels(accounts) + ([r100] + fallback);
    PartsDiffer(AllChannels(accounts), [r100] + fallback, accounts[j].channels[p], k);
  }

  lemma OutsideId(r100: int, fallback: seq<int>, k: nat)
    requires k < |R100Rows(r100, fallback)|
    ensures r100 != 0 && k < |[r100] + fallback| && R100Rows(r100, fallback)[k].channel == ([r100] + fallback)[k]
  {
  }

  lemma PartsDiffer(front: seq<int>, back: seq<int>, x: int, k: nat)
    requires NoDup(front + back) && x in front && k < |back|
    ensures back[k] != x
  {
    var i :| 0 <= i < |front| && front[i] == x;
    assert (front + back)[i] == x && (front + back)[|front| + k] == back[k];
  }

  /** Every channel of every account is in exactly one row of the finished table. */
  lemma EveryChannelPlacedOnce(accounts: seq<Account>, groups: seq<Group>, cells: seq<Cell>, r100: int, fallback: seq<int>,
      j: nat, p: nat) returns (row: nat)
    requires Check(accounts, r100, fallback) == None && Layout(accounts, groups, cells, r100, fallback)
    requires j < |accounts| && p < |accounts[j].channels|
    ensures row < |cells| && cells[row].channel == accounts[j].channels[p]
    ensures forall i :: 0 <= i < |cells| && i != row ==> cells[i].channel != accounts[j].channels[p]
  {
    CheckedUsable(accounts, r100, fallback);
    row := ReadOfChannel(accounts, |accounts[0].channels|, j, p);
    RowChannel(accounts, groups, cells, r100, fallback, row);
    forall i | 0 <= i < |cells| && i != row
      ensures cells[i].channel != accounts[j].channels[p]
    {
      if i < 3 * |groups| {
        RowChannel(accounts, groups, cells, r100, fallback, i);
      } else {
        OutsideChannel(accounts, r100, fallback, i - 3 * |groups|, j, p);
        assert cells[i] == cells[3 * |groups|..][i - 3 * |groups|];
      }
    }
  }

  /** The name and status of a row outside the groups. */
  lemma OutsideRow(r100: int, fallback: seq<int>, k: nat)
    requires k < |R100Rows(r100, fallback)|
    ensures var row := R100Rows(r100, fallback)[k];
      && row.status != Active && GroupKey(row.slot) == None
      && row.slot == if k == 0 then "r100" else "r100-fb" + Decimal(k)
  {
  }

  lemma NumberedDiffer(prefix: string, k: nat, m: nat)
    requires k != m
    ensures prefix + Decimal(k) != prefix + Decimal(m)
  {
    DecimalInjective(k, m);
    PrefixedDiffer(prefix, Decimal(k), Decimal(m));
  }

  lemma PrefixedDiffer(prefix: string, d: string, d': string)
    requires d != d'
    ensures prefix + d != prefix + d'
  {
    assert (prefix + d)[|prefix|..] == d && (prefix + d')[|prefix|..] == d';
  }

  lemma OutsideSlotsDiffer(r100: int, fallback: seq<int>, k: nat, m: nat)
    requires k < m < |R100Rows(r100, fallback)|
    ensures R100Rows(r100, fallback)[k].slot != R100Rows(r100, fallback)[m].slot
  {
    OutsideRow(r100, fallback, k);
    OutsideRow(r100, fallback, m);
    if k > 0 {
      NumberedDiffer("r100-fb", k, m);
    }
  }

  /** No two rows of the finished table share a slot, and a group has one row of each status. */
  lemma TableSlotsDiffer(groups: seq<Group>, cells: seq<Cell>, n: nat, r100: int, fallback: seq<int>, i: nat, k: nat)
    requires n <= |cells| && LaidOut(groups, cells[..n], |groups|) && cells[n..] == R100Rows(r100, fallback)
    requires i < k < |cells|
    ensures cells[i].slot != cells[k].slot
    ensures cells[i].status == cells[k].status ==>
      GroupKey(cells[i].slot) == None || GroupKey(cells[i].slot) != GroupKey(cells[k].slot)
  {
    var part, outside := cells[..n], cells[n..];
    if i >= n {
      assert cells[i] == outside[i - n] && cells[k] == outside[k - n];
      OutsideSlotsDiffer(r100, fallback, i - n, k - n);
      OutsideRow(r100, fallback, i - n);
    } else if k >= n {
      assert cells[i] == part[i] && cells[k] == outside[k - n];
      SidesDiffer(groups, part, r100, fallback, i, k - n);
    } else {
      assert part[i] == cells[i] && part[k] == cells[k];
      SlotsDiffer(groups, part, |groups|, i, k);
    }
  }

  lemma SidesDiffer(groups: seq<Group>, part: seq<Cell>, r100: int, fallback: seq<int>, i: nat, k: nat)
    requires LaidOut(groups, part, |groups|) && i < |part| && k < |R100Rows(r100, fallback)|
    ensures part[i].slot != R100Rows(r100, fallback)[k].slot
    ensures GroupKey(part[i].slot) != GroupKey(R100Rows(r100, fallback)[k].slot)
  {
    RowSlot(groups, part, |groups|, i);
    OutsideRow(r100, fallback, k);
  }

  lemma ActiveChannelsDiffer(accounts: seq<Account>, c: nat, groups: seq<Group>)
    requires Usable(accounts, c) && Paired(accounts, c, groups)
    ensures forall h, h' :: 0 <= h < h' < |groups| ==> groups[h].active != groups[h'].active
  {
    forall h, h' | 0 <= h < h' < |groups| ensures groups[h].active != groups[h'].active {
      ReadsDiffer(accounts, c, 3 * h, 3 * h');
    }
  }

  lemma RingOfGroups(accounts: seq<Account>, groups: seq<Group>, cells: seq<Cell>, r100: int, fallback: seq<int>)
    requires Check(accounts, r100, fallback) == None && Layout(accounts, groups, cells, r100, fallback)
    ensures |ActiveIndices(cells)| == |groups| && (groups != [] ==> OneRing(cells))
  {
    var ring := seq(|groups|, h requires 0 <= h < |groups| => 3 * h);
    ActiveRows(accounts, groups, cells, r100, fallback, ring);
    SameActive(cells, cells, ring);
    CheckedUsable(accounts, r100, fallback);
    ActiveChannelsDiffer(accounts, |accounts[0].channels|, groups);
    if groups != [] {
      assert DistinctChannels(cells, ring);
      assert RingPointers(cells, ring);
      RingPointersCycle(cells, ring);
    }
  }

  /** The finished table: unique slots, one active row a group, and one ring over all of them. */
  lemma GeneratedRing(accounts: seq<Account>, groups: seq<Group>, cells: seq<Cell>, r100: int, fallback: seq<int>)
    requires Check(accounts, r100, fallback) == None && Layout(accounts, groups, cells, r100, fallback)
    ensures UniqueSlots(cells) && AtMostOneActive(cells) && |ActiveIndices(cells)| == |groups|
    ensures groups != [] ==> OneRing(cells)
  {
    RingOfGroups(accounts, groups, cells, r100, fallback);
    forall i, k | 0 <= i < k < |cells|
      ensures cells[i].slot != cells[k].slot
      ensures cells[i].status == cells[k].status ==>
        GroupKey(cells[i].slot) == None || GroupKey(cells[i].slot) != GroupKey(cells[k].slot)
    {
      TableSlotsDiffer(groups, cells, 3 * |groups|, r100, fallback, i, k);
    }
  }

  lemma ActiveRows(accounts: seq<Account>, groups: seq<Group>, cells: seq<Cell>, r100: int, fallback: seq<int>, ring: seq<int>)
    requires Check(accounts, r100, fallback) == None && Layout(accounts, groups, cells, r100, fallback)
    requires ring == seq(|groups|, h requires 0 <= h < |groups| => 3 * h)
    ensures Listing(cells, ring)
    ensures forall h :: 0 <= h < |groups| ==> ChannelOf(cells, ring[h]) == groups[h].active
    ensures forall h :: 0 <= h < |groups| ==> PointerOf(cells, ring[h]) == groups[(h + 1) % |groups|].active
  {
    var part := cells[..3 * |groups|];
    forall h | 0 <= h < |groups|
      ensures IsActive(cells, ring[h]) && ChannelOf(cells, ring[h]) == groups[h].active
      ensures PointerOf(cells, ring[h]) == groups[(h + 1) % |groups|].active
    {
      assert RowsOfGroup(groups, part, |groups|, h);
      assert part[3 * h] == cells[3 * h];
    }
    forall i | IsActive(cells, i)
      ensures i in ring
    {
      ActiveRowIsFirst(accounts, groups, cells, r100, fallback, i);
      assert ring[i / 3] == i;
    }
  }

  lemma ActiveRowIsFirst(accounts: seq<Account>, groups: seq<Group>, cells: seq<Cell>, r100: int, fallback: seq<int>, i: nat)
    requires Check(accounts, r100, fallback) == None && Layout(accounts, groups, cells, r100, fallback) && IsActive(cells, i)
    ensures i < 3 * |groups| && i % 3 == 0
  {
    OutsideInactive(cells, 3 * |groups|, r100, fallback);
    RowSlot(groups, cells[..3 * |groups|], |groups|, i);
    assert cells[..3 * |groups|][i] == cells[i];
  }

  lemma OutsideInactive(cells: seq<Cell>, n: nat, r100: int, fallback: seq<int>)
    requires n <= |cells| && cells[n..] == R100Rows(r100, fallback)
    ensures forall i :: n <= i < |cells| ==> cells[i].status != Active
  {
    forall i | n <= i < |cells| ensures cells[i].status != Active {
      assert cells[i] == cells[n..][i - n];
      OutsideRow(r100, fallback, i - n);
    }
  }

  /** The whole generator: checks, pairing, layout, ring, and the separate r100 rows. What passes the checks becomes a table
      with unique slots, one active row a group, and one ring through all active rows. */
  method Generate(accounts: seq<Account>, r100: int, fallback: seq<int>) returns (r: Result)
    ensures match Check(accounts, r100, fallback)
      case Some(e) => r == Failed(e)
      case None =>
        && r.Generated? && Layout(accounts, r.groups, r.cells, r100, fallback)
        && UniqueSlots(r.cells) && AtMostOneActive(r.cells) && |ActiveIndices(r.cells)| == |r.groups|
        && (r.groups != [] ==> OneRing(r.cells))
  {
    if accounts == [] {
      return Failed(NoAccounts);
    }
    var c := |accounts[0].channels|;
    for j := 0 to |accounts|
      invariant forall k :: 0 <= k < j ==> |accounts[k].channels| == c
    {
      if |accounts[j].channels| != c {
        return Failed(UnequalChannelCounts);
      }
    }
    if c % 3 != 0 {
      return Failed(NotMultipleOfThree);
    }
    if !NoDup(AllIds(accounts, r100, fallback)) {
      return Failed(DuplicateChannel);
    }
    var groups := PairGroups(accounts, c);
    var cells, activeIds := BuildSlots(groups);
    cells := FillRing(groups, cells, activeIds);
    r := Generated(groups, cells + R100Rows(r100, fallback));
    assert r.cells[..3 * |groups|] == cells;
    CheckedUsable(accounts, r100, fallback);
    GeneratedRing(accounts, groups, r.cells, r100, fallback);
  }
}
