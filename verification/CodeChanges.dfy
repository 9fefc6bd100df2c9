/** The batch writer of file-code changes: a list of changes is compiled into one
    UPDATE ... SET col = CASE key WHEN $a THEN $b ... END WHERE key IN ($a, ...) per kind of change,
    and the changes whose statement succeeded are marked synced. */
module CodeChanges {

  const BATCH := 100

  datatype Option<T> = None | Some(value: T)

  datatype Value = Null | Text(s: string) | Number(n: int)

  /** One column of a table, by the table's key. */
  type Table = map<string, Value>

  datatype Kind = Note | Expiry | Availability | AccessLimit | Other

  datatype Change = Change(code: string, kind: Kind, text: string)

  /** The value written for a change. parseInt is the language's lenient integer parser. */
  function Written(c: Change, parseInt: string -> Option<int>): Value {
    match c.kind
    case Expiry => if c.text == "NULL" then Null else Text(c.text)
    case AccessLimit => (match parseInt(c.text) case Some(n) => Number(n) case None => Number(0))
    case _ => Text(c.text)
  }

  // ---- the generated statement and its meaning ----

  /** WHEN $key THEN $result; placeholders are numbered from 1. */
  datatype Branch = When(key: nat, result: nat)

  datatype Statement = Update(branches: seq<Branch>, keys: seq<nat>)

  predicate IsBound(p: nat, params: seq<Value>) {
    1 <= p <= |params|
  }

  predicate BranchesBound(branches: seq<Branch>, params: seq<Value>) {
    forall i :: 0 <= i < |branches| ==> IsBound(branches[i].key, params) && IsBound(branches[i].result, params)
  }

  predicate WellFormed(u: Statement, params: seq<Value>) {
    BranchesBound(u.branches, params) && forall i :: 0 <= i < |u.keys| ==> IsBound(u.keys[i], params)
  }

  /** CASE key WHEN ... END: the first matching branch, NULL when none matches. */
  function Case(branches: seq<Branch>, params: seq<Value>, key: string): Value
    requires BranchesBound(branches, params)
  {
    if branches == [] then Null
    else if params[branches[0].key - 1] == Text(key) then params[branches[0].result - 1]
    else Case(branches[1..], params, key)
  }

  predicate Selects(u: Statement, params: seq<Value>, key: string)
    requires WellFormed(u, params)
  {
    exists i :: 0 <= i < |u.keys| && params[u.keys[i] - 1] == Text(key)
  }

  function Execute(u: Statement, params: seq<Value>, t: Table): Table
    requires WellFormed(u, params)
  {
    map key | key in t :: if Selects(u, params, key) then Case(u.branches, params, key) else t[key]
  }

  // ---- what a group of changes means ----

  datatype Assignment = Assign(code: string, value: Value)

  predicate Listed(group: seq<Assignment>, key: string) {
    exists i :: 0 <= i < |group| && group[i].code == key
  }

  function FirstValue(group: seq<Assignment>, key: string): (v: Value)
    requires Listed(group, key)
  {
    if group[0].code == key then group[0].value else FirstValue(group[1..], key)
  }

  function LastValue(group: seq<Assignment>, key: string): (v: Value)
    requires Listed(group, key)
  {
    if group[|group| - 1].code == key then group[|group| - 1].value else LastValue(group[..|group| - 1], key)
  }

  /** Every listed key present in the table gets its first-listed value. */
  function FirstWins(group: seq<Assignment>, t: Table): Table {
    map key | key in t :: if Listed(group, key) then FirstValue(group, key) else t[key]
  }

  /** UPDATE ... SET col = value WHERE key = code */
  function ApplyOne(t: Table, a: Assignment): Table {
    if a.code in t then t[a.code := a.value] else t
  }

  function OneByOne(group: seq<Assignment>, t: Table): Table {
    if group == [] then t else ApplyOne(OneByOne(group[..|group| - 1], t), group[|group| - 1])
  }

  predicate Agrees(group: seq<Assignment>, key: string) {
    Listed(group, key) ==> FirstValue(group, key) == LastValue(group, key)
  }

  function Assignments(group: seq<Change>, parseInt: string -> Option<int>): (r: seq<Assignment>)
    ensures |r| == |group|
  {
    seq(|group|, i requires 0 <= i < |group| => Assign(group[i].code, Written(group[i], parseInt)))
  }

  // ---- the compiler ----

  /** The statement and parameters the loop builds for a group of changes. */
  predicate Compiled(group: seq<Assignment>, u: Statement, params: seq<Value>) {
    && |u.branches| == |u.keys| == |group| && |params| == 2 * |group|
    && (forall i :: 0 <= i < |group| ==> u.branches[i] == When(2 * i + 1, 2 * i + 2) && u.keys[i] == 2 * i + 1)
    && (forall i :: 0 <= i < |group| ==> params[2 * i] == Text(group[i].code) && params[2 * i + 1] == group[i].value)
  }

  /** One statement that gives every listed key its first-listed value and changes nothing else. */
  method Compile(group: seq<Change>, parseInt: string -> Option<int>) returns (u: Statement, params: seq<Value>)
    ensures WellFormed(u, params)
    ensures forall t: Table :: Execute(u, params, t) == FirstWins(Assignments(group, parseInt), t)
    ensures forall t: Table :: Carries(group, parseInt, t, Execute(u, params, t))
  {
    params := [];
    var branches := [];
    ghost var done := Assignments(group, parseInt);
    for k := 0 to |group|
      invariant |branches| == k && |params| == 2 * k
      invariant forall i :: 0 <= i < k ==> branches[i] == When(2 * i + 1, 2 * i + 2)
      invariant forall i :: 0 <= i < k ==> params[2 * i] == Text(done[i].code) && params[2 * i + 1] == done[i].value
    {
      params := params + [Text(group[k].code)];
      params := params + [Written(group[k], parseInt)];
      branches := branches + [When(|params| - 1, |params|)];
    }
    u := Update(branches, seq(|group|, i requires 0 <= i < |group| => i * 2 + 1));
    forall t: Table ensures Execute(u, params, t) == FirstWins(done, t) {
      CompiledMeansFirstWins(done, u, params, t);
    }
    forall t: Table ensures Carries(group, parseInt, t, Execute(u, params, t)) {
      FirstChangeHolds(group, parseInt, t);
    }
  }

  lemma {:induction false} CaseIsFirstValue(group: seq<Assignment>, u: Statement, params: seq<Value>, k: nat, key: string)
    requires Compiled(group, u, params) && WellFormed(u, params) && k <= |group|
    ensures Listed(group[k..], key) ==> Case(u.branches[k..], params, key) == FirstValue(group[k..], key)
    decreases |group| - k
  {
    if k < |group| {
      assert group[k..][1..] == group[k + 1..] && u.branches[k..][1..] == u.branches[k + 1..];
      CaseIsFirstValue(group, u, params, k + 1, key);
      if Listed(group[k..], key) && group[k].code != key {
        var i :| 0 <= i < |group[k..]| && group[k..][i].code == key;
        assert group[k + 1..][i - 1].code == key;
      }
    }
  }

  lemma CompiledMeansFirstWins(group: seq<Assignment>, u: Statement, params: seq<Value>, t: Table)
    requires Compiled(group, u, params)
    ensures WellFormed(u, params) && Execute(u, params, t) == FirstWins(group, t)
  {
    forall key | key in t ensures Execute(u, params, t)[key] == FirstWins(group, t)[key] {
      assert group[0..] == group && u.branches[0..] == u.branches;
      CaseIsFirstValue(group, u, params, 0, key);
      SelectsListed(group, u, params, key);
    }
  }

  lemma SelectsListed(group: seq<Assignment>, u: Statement, params: seq<Value>, key: string)
    requires Compiled(group, u, params) && WellFormed(u, params)
    ensures Selects(u, params, key) <==> Listed(group, key)
  {
    if Listed(group, key) {
      var i :| 0 <= i < |group| && group[i].code == key;
      assert params[u.keys[i] - 1] == Text(key);
    }
    if Selects(u, params, key) {
      var i :| 0 <= i < |u.keys| && params[u.keys[i] - 1] == Text(key);
      assert params[2 * i] == Text(group[i].code);
    }
  }

  /** A value holds what a change of that kind and text asks for. */
  ghost predicate Stores(v: Value, kind: Kind, text: string, parseInt: string -> Option<int>) {
    && (kind == Expiry ==> v == if text == "NULL" then Null else Text(text))
    && (kind == AccessLimit ==> v == match parseInt(text) case Some(n) => Number(n) case None => Number(0))
    && (kind == Note || kind == Availability ==> v == Text(text))
  }

  /** A code of the table gets what the first change listed for it asks for; a code no change is listed for keeps its value. */
  ghost predicate Carries(group: seq<Change>, parseInt: string -> Option<int>, before: Table, after: Table) {
    && after.Keys == before.Keys
    && forall key :: key in before ==>
      && (forall i :: 0 <= i < |group| && group[i].code == key && (forall j :: 0 <= j < i ==> group[j].code != key) ==>
            Stores(after[key], group[i].kind, group[i].text, parseInt))
      && ((forall i :: 0 <= i < |group| ==> group[i].code != key) ==> after[key] == before[key])
  }

  lemma FirstChangeHolds(group: seq<Change>, parseInt: string -> Option<int>, t: Table)
    ensures Carries(group, parseInt, t, FirstWins(Assignments(group, parseInt), t))
  {
    var all, after := Assignments(group, parseInt), FirstWins(Assignments(group, parseInt), t);
    forall key | key in t
      ensures forall i :: 0 <= i < |group| && group[i].code == key && (forall j :: 0 <= j < i ==> group[j].code != key) ==>
        Stores(after[key], group[i].kind, group[i].text, parseInt)
      ensures (forall i :: 0 <= i < |group| ==> group[i].code != key) ==> after[key] == t[key]
    {
      if exists i :: 0 <= i < |group| && group[i].code == key {
        var i :| 0 <= i < |group| && group[i].code == key;
        assert all[i].code == key;
        var first := FirstValueAt(all, key);
        assert group[first].code == key && all[first].value == Written(group[first], parseInt);
        assert forall j :: 0 <= j < first ==> all[j].code == group[j].code != key;
      }
    }
  }

  // ---- one statement against one-by-one updates ----

  lemma {:induction false} OneByOneIsLastWins(group: seq<Assignment>, t: Table)
    ensures OneByOne(group, t).Keys == t.Keys
    ensures forall key :: key in t ==> OneByOne(group, t)[key] == if Listed(group, key) then LastValue(group, key) else t[key]
  {
    if group != [] {
      var init, last := group[..|group| - 1], group[|group| - 1];
      OneByOneIsLastWins(init, t);
      forall key | key in t
        ensures OneByOne(group, t)[key] == if Listed(group, key) then LastValue(group, key) else t[key]
      {
        ListedSnoc(group, key);
      }
    }
  }

  lemma ListedSnoc(group: seq<Assignment>, key: string)
    requires group != []
    ensures Listed(group, key) <==> Listed(group[..|group| - 1], key) || group[|group| - 1].code == key
  {
    if Listed(group, key) && group[|group| - 1].code != key {
      var i :| 0 <= i < |group| && group[i].code == key;
      assert group[..|group| - 1][i].code == key;
    }
  }

  /** The single statement means the same as the changes one by one exactly when, for every code present
      in the table, the first-listed value is the last-listed one. */
  lemma OneStatementMatchesOneByOne(group: seq<Assignment>, t: Table)
    ensures FirstWins(group, t) == OneByOne(group, t) <==> forall key :: key in t ==> Agrees(group, key)
  {
    OneByOneIsLastWins(group, t);
    if FirstWins(group, t) == OneByOne(group, t) {
      forall key | key in t ensures Agrees(group, key) {
        assert FirstWins(group, t)[key] == OneByOne(group, t)[key];
      }
    }
    if forall key :: key in t ==> Agrees(group, key) {
      forall key | key in t ensures FirstWins(group, t)[key] == OneByOne(group, t)[key] {
        assert Agrees(group, key);
      }
    }
  }

  lemma {:induction false} FirstValueAt(group: seq<Assignment>, key: string) returns (i: nat)
    requires Listed(group, key)
    ensures i < |group| && group[i].code == key && group[i].value == FirstValue(group, key)
    ensures forall j :: 0 <= j < i ==> group[j].code != key
  {
    if group[0].code == key {
      i := 0;
    } else {
      var w :| 0 <= w < |group| && group[w].code == key;
      assert group[1..][w - 1].code == key;
      var j := FirstValueAt(group[1..], key);
      i := j + 1;
    }
  }

  lemma {:induction false} LastValueAt(group: seq<Assignment>, key: string) returns (i: nat)
    requires Listed(group, key)
    ensures i < |group| && group[i].code == key && group[i].value == LastValue(group, key)
    ensures forall j :: i < j < |group| ==> group[j].code != key
  {
    if group[|group| - 1].code == key {
      i := |group| - 1;
    } else {
      ListedSnoc(group, key);
      i := LastValueAt(group[..|group| - 1], key);
    }
  }

  predicate DistinctCodes(group: seq<Assignment>) {
    forall i, j :: 0 <= i < j < |group| ==> group[i].code != group[j].code
  }

  /** Pairwise distinct codes: the statement is the changes one by one. */
  lemma DistinctCodesMatch(group: seq<Assignment>, t: Table)
    requires DistinctCodes(group)
    ensures FirstWins(group, t) == OneByOne(group, t)
  {
    forall key | key in t ensures Agrees(group, key) {
      if Listed(group, key) {
        var i := FirstValueAt(group, key);
        var j := LastValueAt(group, key);
      }
    }
    OneStatementMatchesOneByOne(group, t);
  }

  /** No row the statement touches falls through to NULL for want of a branch: a NULL was asked for by name. */
  lemma NoFallThrough(group: seq<Assignment>, u: Statement, params: seq<Value>, t: Table, key: string)
    requires Compiled(group, u, params) && key in t
    ensures WellFormed(u, params)
    ensures Selects(u, params, key) ==> exists i :: 0 <= i < |group| && group[i] == Assign(key, Execute(u, params, t)[key])
    ensures !Selects(u, params, key) ==> Execute(u, params, t)[key] == t[key]
  {
    CompiledMeansFirstWins(group, u, params, t);
    SelectsListed(group, u, params, key);
    if Selects(u, params, key) {
      var i := FirstValueAt(group, key);
      assert group[i] == Assign(key, Execute(u, params, t)[key]);
    }
  }

  /** A code changed twice within one batch keeps the older value. */
  lemma NewestChangeLost()
    ensures var t: Table := map["a" := Text("old")];
      var group := [Assign("a", Text("first")), Assign("a", Text("second"))];
      FirstWins(group, t) == map["a" := Text("first")] && OneByOne(group, t) == map["a" := Text("second")]
  {
    var t: Table := map["a" := Text("old")];
    var group := [Assign("a", Text("first")), Assign("a", Text("second"))];
    assert group[0].code == "a" && group[1].code == "a";
    assert Listed(group, "a");
    assert group[..1] == [Assign("a", Text("first"))] && group[..1][..0] == [];
  }

  // ---- the change buffer and one pass of the loop ----

  /** Row of code_changes; its id is its position, rows are kept in the order they were created. */
  datatype Entry = Entry(change: Change, synced: bool)

  /** The columns the six statements of a pass write. */
  datatype Column = CodesNote | CodesExpireTime | CodesStatus | FilesMaxRequests | FilesExpireTime | FilesStatus

  function KindOf(c: Column): Kind {
    match c
    case CodesNote => Note
    case CodesExpireTime => Expiry
    case CodesStatus => Availability
    case FilesMaxRequests => AccessLimit
    case FilesExpireTime => Expiry
    case FilesStatus => Availability
  }

  /** The statement whose success marks a change synced; the file_records copies of expiry and status do not count. */
  function Primary(k: Kind): Option<Column> {
    match k
    case Note => Some(CodesNote)
    case Expiry => Some(CodesExpireTime)
    case Availability => Some(CodesStatus)
    case AccessLimit => Some(FilesMaxRequests)
    case Other => None
  }

  /** Unsynced rows among the first n. */
  function Unsynced(entries: seq<Entry>, n: nat): nat
    requires n <= |entries|
  {
    if n == 0 then 0 else Unsynced(entries, n - 1) + if entries[n - 1].synced then 0 else 1
  }

  /** WHERE synced = 0 ORDER BY created_at ASC LIMIT 100 */
  predicate InBatch(entries: seq<Entry>, i: nat) {
    i < |entries| && !entries[i].synced && Unsynced(entries, i) < BATCH
  }

  /** The ids of one kind in the batch, among the first n rows. */
  function Group(entries: seq<Entry>, k: Kind, n: nat): (ids: seq<nat>)
    requires n <= |entries|
    ensures forall j :: 0 <= j < |ids| ==> ids[j] < n
  {
    if n == 0 then []
    else Group(entries, k, n - 1) + if InBatch(entries, n - 1) && entries[n - 1].change.kind == k then [n - 1] else []
  }

  function AssignmentsAt(entries: seq<Entry>, ids: seq<nat>, parseInt: string -> Option<int>): (r: seq<Assignment>)
    requires forall j :: 0 <= j < |ids| ==> ids[j] < |entries|
    ensures |r| == |ids|
  {
    seq(|ids|, j requires 0 <= j < |ids| => Assign(entries[ids[j]].change.code, Written(entries[ids[j]].change, parseInt)))
  }

  function BatchOf(entries: seq<Entry>, k: Kind, parseInt: string -> Option<int>): seq<Assignment> {
    AssignmentsAt(entries, Group(entries, k, |entries|), parseInt)
  }

  /** Which statements fail, and whether marking the rows synced does. */
  datatype Faults = Faults(failing: set<Column>, marking: bool)

  datatype Tables = Tables(notes: Table, expiries: Table, statuses: Table, limits: Table, fileExpiries: Table, fileStatuses: Table) {
    function At(c: Column): Table {
      match c
      case CodesNote => notes
      case CodesExpireTime => expiries
      case CodesStatus => statuses
      case FilesMaxRequests => limits
      case FilesExpireTime => fileExpiries
      case FilesStatus => fileStatuses
    }

    function With(c: Column, t: Table): Tables {
      match c
      case CodesNote => this.(notes := t)
      case CodesExpireTime => this.(expiries := t)
      case CodesStatus => this.(statuses := t)
      case FilesMaxRequests => this.(limits := t)
      case FilesExpireTime => this.(fileExpiries := t)
      case FilesStatus => this.(fileStatuses := t)
    }
  }

  /** A column after the pass. */
  function ColumnAfter(entries: seq<Entry>, f: Faults, parseInt: string -> Option<int>, c: Column, t: Table): Table {
    if c in f.failing then t else FirstWins(BatchOf(entries, KindOf(c), parseInt), t)
  }

  function After(entries: seq<Entry>, f: Faults, parseInt: string -> Option<int>, c: Column, t: Tables): Tables {
    t.With(c, ColumnAfter(entries, f, parseInt, c, t.At(c)))
  }

  function AfterPrimary(entries: seq<Entry>, f: Faults, parseInt: string -> Option<int>, t: Tables): Tables {
    var t1 := After(entries, f, parseInt, CodesNote, t);
    var t2 := After(entries, f, parseInt, CodesExpireTime, t1);
    var t3 := After(entries, f, parseInt, CodesStatus, t2);
    After(entries, f, parseInt, FilesMaxRequests, t3)
  }

  function AfterCopies(entries: seq<Entry>, f: Faults, parseInt: string -> Option<int>, t: Tables): Tables {
    After(entries, f, parseInt, FilesStatus, After(entries, f, parseInt, FilesExpireTime, t))
  }

  function Flushed(entries: seq<Entry>, f: Faults, parseInt: string -> Option<int>, t: Tables): Tables {
    AfterCopies(entries, f, parseInt, AfterPrimary(entries, f, parseInt, t))
  }

  /** Each statement writes its own column from the old one: the order of the statements does not matter. */
  lemma FlushedColumns(entries: seq<Entry>, f: Faults, parseInt: string -> Option<int>, t: Tables, c: Column)
    ensures Flushed(entries, f, parseInt, t).At(c) == ColumnAfter(entries, f, parseInt, c, t.At(c))
  {
  }

  // ---- what a pass leaves, row by row ----

  /** Row i is one of the hundred oldest rows that are not synced. */
  ghost predicate AmongOldest(entries: seq<Entry>, i: nat) {
    i < |entries| && !entries[i].synced && |set j: nat | j < i && !entries[j].synced| < 100
  }

  lemma {:induction false} UnsyncedCounts(entries: seq<Entry>, n: nat)
    requires n <= |entries|
    ensures Unsynced(entries, n) == |set j: nat | j < n && !entries[j].synced|
  {
    if n > 0 {
      UnsyncedCounts(entries, n - 1);
      var before, now := set j: nat | j < n - 1 && !entries[j].synced, set j: nat | j < n && !entries[j].synced;
      assert now == if entries[n - 1].synced then before else before + {n - 1};
    }
  }

  /** The batch is the hundred oldest rows. */
  lemma InBatchIffOldest(entries: seq<Entry>, i: nat)
    ensures InBatch(entries, i) <==> AmongOldest(entries, i)
  {
    if i < |entries| {
      UnsyncedCounts(entries, i);
    }
  }

  lemma {:induction false} GroupMembers(entries: seq<Entry>, k: Kind, n: nat)
    requires n <= |entries|
    ensures forall i: nat :: i in Group(entries, k, n) <==> i < n && InBatch(entries, i) && entries[i].change.kind == k
  {
    if n > 0 {
      GroupMembers(entries, k, n - 1);
    }
  }

  lemma {:induction false} GroupInOrder(entries: seq<Entry>, k: Kind, n: nat)
    requires n <= |entries|
    ensures forall a, b :: 0 <= a < b < |Group(entries, k, n)| ==> Group(entries, k, n)[a] < Group(entries, k, n)[b]
  {
    if n > 0 {
      GroupInOrder(entries, k, n - 1);
    }
  }

  /** A change of that kind for the key in the batch. */
  ghost predicate Asks(entries: seq<Entry>, kind: Kind, key: string, i: nat) {
    InBatch(entries, i) && entries[i].change.kind == kind && entries[i].change.code == key
  }

  /** What a column holds for a key after a pass: what the oldest change of the kind asks for, or what it held before when there is
      none or the statement failed. */
  ghost predicate Settles(entries: seq<Entry>, kind: Kind, failed: bool, before: Table, after: Table, parseInt: string -> Option<int>) {
    && after.Keys == before.Keys
    && (failed ==> after == before)
    && (!failed ==> forall key, i: nat :: key in before && Asks(entries, kind, key, i) ==>
          (exists j: nat :: j < i && Asks(entries, kind, key, j)) || Stores(after[key], kind, entries[i].change.text, parseInt))
    && forall key :: key in before && (forall i: nat :: !Asks(entries, kind, key, i)) ==> after[key] == before[key]
  }

  lemma GroupSettles(entries: seq<Entry>, kind: Kind, before: Table, parseInt: string -> Option<int>)
    ensures Settles(entries, kind, false, before, FirstWins(BatchOf(entries, kind, parseInt), before), parseInt)
  {
    forall key | key in before
      ensures Listed(BatchOf(entries, kind, parseInt), key) <==> exists i: nat :: Asks(entries, kind, key, i)
      ensures var after := FirstWins(BatchOf(entries, kind, parseInt), before);
        forall i: nat :: Asks(entries, kind, key, i) ==>
          (exists j: nat :: j < i && Asks(entries, kind, key, j)) || Stores(after[key], kind, entries[i].change.text, parseInt)
    {
      KeySettles(entries, kind, before, parseInt, key);
    }
  }

  lemma KeySettles(entries: seq<Entry>, kind: Kind, before: Table, parseInt: string -> Option<int>, key: string)
    requires key in before
    ensures var all := BatchOf(entries, kind, parseInt);
      Listed(all, key) <==> exists i: nat :: Asks(entries, kind, key, i)
    ensures var after := FirstWins(BatchOf(entries, kind, parseInt), before);
      forall i: nat :: Asks(entries, kind, key, i) ==>
        (exists j: nat :: j < i && Asks(entries, kind, key, j)) || Stores(after[key], kind, entries[i].change.text, parseInt)
  {
    forall i: nat | Asks(entries, kind, key, i) ensures Listed(BatchOf(entries, kind, parseInt), key) {
      var at := PlaceInBatch(entries, kind, parseInt, key, i);
    }
    if Listed(BatchOf(entries, kind, parseInt), key) {
      var first := OldestAsked(entries, kind, parseInt, key);
      assert Stores(FirstValue(BatchOf(entries, kind, parseInt), key), kind, entries[first].change.text, parseInt);
    }
  }

  lemma PlaceInBatch(entries: seq<Entry>, kind: Kind, parseInt: string -> Option<int>, key: string, i: nat) returns (at: nat)
    requires Asks(entries, kind, key, i)
    ensures var ids, all := Group(entries, kind, |entries|), BatchOf(entries, kind, parseInt);
      at < |ids| && ids[at] == i && all[at].code == key && Listed(all, key)
  {
    var ids := Group(entries, kind, |entries|);
    GroupMembers(entries, kind, |entries|);
    assert i in ids;
    at :| 0 <= at < |ids| && ids[at] == i;
    assert BatchOf(entries, kind, parseInt)[at].code == key;
  }

  lemma OldestAsked(entries: seq<Entry>, kind: Kind, parseInt: string -> Option<int>, key: string) returns (first: nat)
    requires Listed(BatchOf(entries, kind, parseInt), key)
    ensures Asks(entries, kind, key, first) && forall i: nat :: Asks(entries, kind, key, i) ==> first <= i
    ensures FirstValue(BatchOf(entries, kind, parseInt), key) == Written(entries[first].change, parseInt)
    ensures entries[first].change.kind == kind
  {
    var ids, all := Group(entries, kind, |entries|), BatchOf(entries, kind, parseInt);
    GroupMembers(entries, kind, |entries|);
    GroupInOrder(entries, kind, |entries|);
    var at := FirstValueAt(all, key);
    first := ids[at];
    assert first in ids;
    forall i: nat | Asks(entries, kind, key, i) ensures first <= i {
      var place := PlaceInBatch(entries, kind, parseInt, key, i);
      assert at <= place;
    }
  }

  /** The six columns after a pass, each by its own kind of change and its own failure. */
  ghost predicate AllSettle(entries: seq<Entry>, f: Faults, parseInt: string -> Option<int>, before: Tables, after: Tables) {
    && Settles(entries, Note, CodesNote in f.failing, before.notes, after.notes, parseInt)
    && Settles(entries, Expiry, CodesExpireTime in f.failing, before.expiries, after.expiries, parseInt)
    && Settles(entries, Availability, CodesStatus in f.failing, before.statuses, after.statuses, parseInt)
    && Settles(entries, AccessLimit, FilesMaxRequests in f.failing, before.limits, after.limits, parseInt)
    && Settles(entries, Expiry, FilesExpireTime in f.failing, before.fileExpiries, after.fileExpiries, parseInt)
    && Settles(entries, Availability, FilesStatus in f.failing, before.fileStatuses, after.fileStatuses, parseInt)
  }

  lemma PassSettles(entries: seq<Entry>, f: Faults, parseInt: string -> Option<int>, t: Tables)
    ensures AllSettle(entries, f, parseInt, t, Flushed(entries, f, parseInt, t))
  {
    ColumnSettles(entries, f, parseInt, t, CodesNote);
    ColumnSettles(entries, f, parseInt, t, CodesExpireTime);
    ColumnSettles(entries, f, parseInt, t, CodesStatus);
    ColumnSettles(entries, f, parseInt, t, FilesMaxRequests);
    ColumnSettles(entries, f, parseInt, t, FilesExpireTime);
    ColumnSettles(entries, f, parseInt, t, FilesStatus);
  }

  lemma ColumnSettles(entries: seq<Entry>, f: Faults, parseInt: string -> Option<int>, t: Tables, c: Column)
    ensures Settles(entries, KindOf(c), c in f.failing, t.At(c), Flushed(entries, f, parseInt, t).At(c), parseInt)
  {
    GroupSettles(entries, KindOf(c), t.At(c), parseInt);
    FlushedColumns(entries, f, parseInt, t, c);
  }

  /** A removed expiry clears both columns, over anything listed for the code before this pass. */
  lemma RemovedExpiryClears(entries: seq<Entry>, f: Faults, parseInt: string -> Option<int>, t: Tables, key: string, i: nat)
    requires Asks(entries, Expiry, key, i) && entries[i].change.text == "NULL" && forall j: nat :: j < i ==> !Asks(entries, Expiry, key, j)
    ensures var after := Flushed(entries, f, parseInt, t);
      && (key in t.expiries && CodesExpireTime !in f.failing ==> key in after.expiries && after.expiries[key] == Null)
      && (key in t.fileExpiries && FilesExpireTime !in f.failing ==> key in after.fileExpiries && after.fileExpiries[key] == Null)
  {
    PassSettles(entries, f, parseInt, t);
    var after := Flushed(entries, f, parseInt, t);
    if key in t.expiries && CodesExpireTime !in f.failing {
      assert Stores(after.expiries[key], Expiry, "NULL", parseInt);
    }
    if key in t.fileExpiries && FilesExpireTime !in f.failing {
      assert Stores(after.fileExpiries[key], Expiry, "NULL", parseInt);
    }
  }

  /** A row is marked by a pass exactly when it was one of the oldest hundred and the first statement for its kind went through. */
  lemma MarkedIff(entries: seq<Entry>, f: Faults, i: nat)
    requires i < |entries|
    ensures Marked(entries, f)[i].change == entries[i].change
    ensures var kind := entries[i].change.kind;
      (Marked(entries, f)[i].synced && !entries[i].synced) <==> (
        && AmongOldest(entries, i) && !f.marking && kind != Other
        && (kind == Note ==> CodesNote !in f.failing) && (kind == Expiry ==> CodesExpireTime !in f.failing)
        && (kind == Availability ==> CodesStatus !in f.failing) && (kind == AccessLimit ==> FilesMaxRequests !in f.failing))
    ensures entries[i].synced ==> Marked(entries, f)[i].synced
  {
    InBatchIffOldest(entries, i);
  }

  /** Row i is marked synced by the pass. */
  predicate Marks(entries: seq<Entry>, f: Faults, i: nat) {
    && InBatch(entries, i) && !f.marking
    && Primary(entries[i].change.kind).Some? && Primary(entries[i].change.kind).value !in f.failing
  }

  function Marked(entries: seq<Entry>, f: Faults): (r: seq<Entry>)
    ensures |r| == |entries|
  {
    seq(|entries|, i requires 0 <= i < |entries| => if Marks(entries, f, i) then entries[i].(synced := true) else entries[i])
  }

  class ChangeSync {
    var entries: seq<Entry>
    var tables: Tables

    constructor (t: Tables)
      ensures entries == [] && tables == t
    {
      entries, tables := [], t;
    }

    method Insert(c: Change)
      modifies this
      ensures entries == old(entries) + [Entry(c, false)] && tables == old(tables)
    {
      entries := entries + [Entry(c, false)];
    }

    /** The ids of the rows to flush, oldest first. */
    method GetUnsynced() returns (ids: seq<nat>)
      ensures ids == BatchIds(entries, |entries|) && IsBatch(entries, ids)
      ensures forall j, k :: 0 <= j < k < |ids| ==> ids[j] < ids[k]
    {
      ids := [];
      for n := 0 to |entries|
        invariant ids == BatchIds(entries, n)
        invariant |ids| == if Unsynced(entries, n) < BATCH then Unsynced(entries, n) else BATCH
      {
        if !entries[n].synced && |ids| < BATCH {
          ids := ids + [n];
        }
      }
      BatchIdsAreBatch(entries);
    }

    /** One statement of the pass: run only for a non-empty group; returns the ids it wrote. */
    method Run(c: Column, ids: seq<nat>, f: Faults, parseInt: string -> Option<int>) returns (done: seq<nat>)
      requires IsBatch(entries, ids)
      modifies this`tables
      ensures done == IdsWritten(entries, ids, f, c)
      ensures tables == After(entries, f, parseInt, c, old(tables))
    {
      done := OfKind(entries, ids, KindOf(c));
      if done == [] || c in f.failing {
        NothingListed(tables.At(c));
        return [];
      }
      var rows := entries;
      var group := seq(|done|, j requires 0 <= j < |done| => rows[done[j]].change);
      var u, params := Compile(group, parseInt);
      assert Assignments(group, parseInt) == AssignmentsAt(entries, done, parseInt);
      tables := tables.With(c, Execute(u, params, tables.At(c)));
    }

    /** UPDATE code_changes SET synced = 1 WHERE id IN (...) */
    method MarkSynced(ids: seq<nat>)
      requires forall j :: 0 <= j < |ids| ==> ids[j] < |entries|
      modifies this`entries
      ensures |entries| == |old(entries)|
      ensures forall i: nat :: i < |entries| ==> entries[i] == (if i in ids then old(entries)[i].(synced := true) else old(entries)[i])
    {
      var rows := entries;
      entries := seq(|rows|, i requires 0 <= i < |rows| => if i in ids then rows[i].(synced := true) else rows[i]);
    }

    /** One pass: four primary statements, the two copies into file_records, then the marks. */
    method Flush(f: Faults, parseInt: string -> Option<int>)
      modifies this
      ensures tables == Flushed(old(entries), f, parseInt, old(tables))
      ensures entries == Marked(old(entries), f)
      ensures AllSettle(old(entries), f, parseInt, old(tables), tables)
    {
      PassSettles(entries, f, parseInt, tables);
      var ids := GetUnsynced();
      var synced := FlushPrimary(ids, f, parseInt);
      FlushCopies(ids, f, parseInt);
      if !f.marking {
        MarkSynced(synced);
      }
    }

    /** The statements whose success counts; returns the ids to mark. */
    method FlushPrimary(ids: seq<nat>, f: Faults, parseInt: string -> Option<int>) returns (synced: seq<nat>)
      requires IsBatch(entries, ids)
      modifies this`tables
      ensures tables == AfterPrimary(entries, f, parseInt, old(tables))
      ensures forall j :: 0 <= j < |synced| ==> synced[j] < |entries|
      ensures forall i: nat :: i in synced <==> Marks(entries, f.(marking := false), i)
    {
      var notes, expiries, statuses, limits := RunPrimary(ids, f, parseInt);
      synced := notes + expiries + statuses + limits;
      MarksAreWritten(entries, ids, f, notes, expiries, statuses, limits);
    }

    method RunPrimary(ids: seq<nat>, f: Faults, parseInt: string -> Option<int>)
      returns (notes: seq<nat>, expiries: seq<nat>, statuses: seq<nat>, limits: seq<nat>)
      requires IsBatch(entries, ids)
      modifies this`tables
      ensures tables == AfterPrimary(entries, f, parseInt, old(tables))
      ensures notes == IdsWritten(entries, ids, f, CodesNote) && expiries == IdsWritten(entries, ids, f, CodesExpireTime)
      ensures statuses == IdsWritten(entries, ids, f, CodesStatus) && limits == IdsWritten(entries, ids, f, FilesMaxRequests)
    {
      notes := Run(CodesNote, ids, f, parseInt);
      expiries := Run(CodesExpireTime, ids, f, parseInt);
      statuses := Run(CodesStatus, ids, f, parseInt);
      limits := Run(FilesMaxRequests, ids, f, parseInt);
    }

    /** The copies of expiry and status changes into file_records. */
    method FlushCopies(ids: seq<nat>, f: Faults, parseInt: string -> Option<int>)
      requires IsBatch(entries, ids)
      modifies this`tables
      ensures tables == AfterCopies(entries, f, parseInt, old(tables))
    {
      var _ := Run(FilesExpireTime, ids, f, parseInt);
      var _ := Run(FilesStatus, ids, f, parseInt);
    }
  }

  /** The ids a statement writes: its group, unless it fails. */
  function IdsWritten(entries: seq<Entry>, ids: seq<nat>, f: Faults, c: Column): seq<nat>
    requires forall j :: 0 <= j < |ids| ==> ids[j] < |entries|
  {
    if c in f.failing then [] else OfKind(entries, ids, KindOf(c))
  }

  /** The ids of the batch among the first n rows. */
  function BatchIds(entries: seq<Entry>, n: nat): (ids: seq<nat>)
    requires n <= |entries|
    ensures forall j :: 0 <= j < |ids| ==> ids[j] < n
    ensures forall j, k :: 0 <= j < k < |ids| ==> ids[j] < ids[k]
  {
    if n == 0 then [] else BatchIds(entries, n - 1) + if InBatch(entries, n - 1) then [n - 1] else []
  }

  lemma {:induction false} BatchIdsMembers(entries: seq<Entry>, n: nat, i: nat)
    requires n <= |entries|
    ensures i in BatchIds(entries, n) <==> i < n && InBatch(entries, i)
  {
    if n > 0 {
      BatchIdsMembers(entries, n - 1, i);
    }
  }

  lemma {:induction false} BatchIdsOfKind(entries: seq<Entry>, n: nat, k: Kind)
    requires n <= |entries|
    ensures OfKind(entries, BatchIds(entries, n), k) == Group(entries, k, n)
  {
    if n > 0 {
      BatchIdsOfKind(entries, n - 1, k);
      OfKindNext(entries, BatchIds(entries, n - 1), n - 1, k, InBatch(entries, n - 1));
    }
  }

  lemma OfKindNext(entries: seq<Entry>, ids: seq<nat>, last: nat, k: Kind, taken: bool)
    requires (forall j :: 0 <= j < |ids| ==> ids[j] < |entries|) && last < |entries|
    ensures OfKind(entries, ids + if taken then [last] else [], k) ==
      OfKind(entries, ids, k) + if taken && entries[last].change.kind == k then [last] else []
  {
    if taken {
      assert (ids + [last])[..|ids|] == ids;
    } else {
      assert ids + [] == ids;
    }
  }

  lemma BatchIdsAreBatch(entries: seq<Entry>)
    ensures IsBatch(entries, BatchIds(entries, |entries|))
  {
    forall i: nat ensures i in BatchIds(entries, |entries|) <==> InBatch(entries, i) {
      BatchIdsMembers(entries, |entries|, i);
    }
    forall k: Kind ensures OfKind(entries, BatchIds(entries, |entries|), k) == Group(entries, k, |entries|) {
      BatchIdsOfKind(entries, |entries|, k);
    }
  }

  ghost predicate IsBatch(entries: seq<Entry>, ids: seq<nat>) {
    && (forall j :: 0 <= j < |ids| ==> ids[j] < |entries|)
    && (forall i: nat :: i in ids <==> InBatch(entries, i))
    && (forall k: Kind :: OfKind(entries, ids, k) == Group(entries, k, |entries|))
  }

  lemma MarksAreWritten(entries: seq<Entry>, ids: seq<nat>, f: Faults, notes: seq<nat>, expiries: seq<nat>, statuses: seq<nat>,
      limits: seq<nat>)
    requires IsBatch(entries, ids)
    requires notes == IdsWritten(entries, ids, f, CodesNote) && expiries == IdsWritten(entries, ids, f, CodesExpireTime)
    requires statuses == IdsWritten(entries, ids, f, CodesStatus) && limits == IdsWritten(entries, ids, f, FilesMaxRequests)
    ensures forall j :: 0 <= j < |notes + expiries + statuses + limits| ==> (notes + expiries + statuses + limits)[j] < |entries|
    ensures forall i: nat :: i in notes + expiries + statuses + limits <==> Marks(entries, f.(marking := false), i)
  {
    forall i: nat
      ensures i in notes + expiries + statuses + limits <==> Marks(entries, f.(marking := false), i)
    {
      MarkedAreWritten(entries, ids, f, i);
    }
  }

  lemma WrittenIff(entries: seq<Entry>, ids: seq<nat>, f: Faults, c: Column, i: nat)
    requires forall j :: 0 <= j < |ids| ==> ids[j] < |entries|
    ensures i in IdsWritten(entries, ids, f, c) <==> (c !in f.failing && i in ids && entries[i].change.kind == KindOf(c))
  {
    IdsOfKind(entries, ids, i);
  }

  /** An id is marked when it was written by the statement of its kind. */
  lemma MarkedAreWritten(entries: seq<Entry>, ids: seq<nat>, f: Faults, i: nat)
    requires IsBatch(entries, ids)
    ensures Marks(entries, f.(marking := false), i) <==> (
      || i in IdsWritten(entries, ids, f, CodesNote) || i in IdsWritten(entries, ids, f, CodesExpireTime)
      || i in IdsWritten(entries, ids, f, CodesStatus) || i in IdsWritten(entries, ids, f, FilesMaxRequests))
  {
    WrittenIff(entries, ids, f, CodesNote, i);
    WrittenIff(entries, ids, f, CodesExpireTime, i);
    WrittenIff(entries, ids, f, CodesStatus, i);
    WrittenIff(entries, ids, f, FilesMaxRequests, i);
  }

  /** [c for c in changes if c["change_type"] == kind] */
  function OfKind(entries: seq<Entry>, ids: seq<nat>, k: Kind): (r: seq<nat>)
    requires forall j :: 0 <= j < |ids| ==> ids[j] < |entries|
    ensures forall j :: 0 <= j < |r| ==> r[j] < |entries|
  {
    if ids == [] then []
    else
      var last := ids[|ids| - 1];
      OfKind(entries, ids[..|ids| - 1], k) + if entries[last].change.kind == k then [last] else []
  }

  lemma {:induction false} IdsOfKind(entries: seq<Entry>, ids: seq<nat>, i: nat)
    requires forall j :: 0 <= j < |ids| ==> ids[j] < |entries|
    ensures forall k: Kind :: i in OfKind(entries, ids, k) <==> i in ids && entries[i].change.kind == k
  {
    if ids != [] {
      IdsOfKind(entries, ids[..|ids| - 1], i);
      assert ids == ids[..|ids| - 1] + [ids[|ids| - 1]];
    }
  }

  lemma NothingListed(t: Table)
    ensures FirstWins([], t) == t
  {
  }

  // ---- whole runs ----

  datatype Event = Record(change: Change) | Pass(faults: Faults)

  /** history[i] holds the columns whose statement has executed with change i in it. */
  datatype State = State(entries: seq<Entry>, tables: Tables, history: seq<set<Column>>)

  predicate Executes(entries: seq<Entry>, f: Faults, c: Column, i: nat) {
    InBatch(entries, i) && entries[i].change.kind == KindOf(c) && c !in f.failing
  }

  function HistoryAfter(s: State, f: Faults): (r: seq<set<Column>>)
    ensures |r| == |s.history|
  {
    seq(|s.history|, i requires 0 <= i < |s.history| => s.history[i] + set c: Column | Executes(s.entries, f, c, i))
  }

  function Step(s: State, e: Event, parseInt: string -> Option<int>): State {
    match e
    case Record(change) => State(s.entries + [Entry(change, false)], s.tables, s.history + [{}])
    case Pass(f) => State(Marked(s.entries, f), Flushed(s.entries, f, parseInt, s.tables), HistoryAfter(s, f))
  }

  /** The change rows marked true among the first n, in order. */
  function Chosen(marks: seq<bool>, n: nat): (ids: seq<nat>)
    requires n <= |marks|
    ensures forall j :: 0 <= j < |ids| ==> ids[j] < n
  {
    if n == 0 then [] else Chosen(marks, n - 1) + if marks[n - 1] then [n - 1] else []
  }

  function ExecutedMarks(s: State, c: Column): (marks: seq<bool>)
    ensures |marks| == |s.history|
  {
    seq(|s.history|, i requires 0 <= i < |s.history| => c in s.history[i])
  }

  function BatchMarks(entries: seq<Entry>, k: Kind): (marks: seq<bool>)
    ensures |marks| == |entries|
  {
    seq(|entries|, i requires 0 <= i < |entries| => InBatch(entries, i) && entries[i].change.kind == k)
  }

  function KindMarks(entries: seq<Entry>, k: Kind): (marks: seq<bool>)
    ensures |marks| == |entries|
  {
    seq(|entries|, i requires 0 <= i < |entries| => entries[i].change.kind == k)
  }

  /** The value of the latest marked change of a code among the first n. */
  function Latest(entries: seq<Entry>, marks: seq<bool>, key: string, n: nat, v: Value, parseInt: string -> Option<int>): Value
    requires n <= |entries| == |marks|
  {
    if n == 0 then v
    else if marks[n - 1] && entries[n - 1].change.code == key then Written(entries[n - 1].change, parseInt)
    else Latest(entries, marks, key, n - 1, v, parseInt)
  }

  lemma {:induction false} LatestIsLastValue(entries: seq<Entry>, marks: seq<bool>, key: string, n: nat, v: Value,
      parseInt: string -> Option<int>)
    requires n <= |entries| == |marks|
    ensures var group := AssignmentsAt(entries, Chosen(marks, n), parseInt);
      Latest(entries, marks, key, n, v, parseInt) == if Listed(group, key) then LastValue(group, key) else v
  {
    if n > 0 {
      LatestIsLastValue(entries, marks, key, n - 1, v, parseInt);
      ChosenSnoc(entries, marks, n, parseInt);
      if marks[n - 1] {
        var before := AssignmentsAt(entries, Chosen(marks, n - 1), parseInt);
        var last := Assign(entries[n - 1].change.code, Written(entries[n - 1].change, parseInt));
        LastValueSnoc(before, last, key);
      }
    }
  }

  lemma ChosenSnoc(entries: seq<Entry>, marks: seq<bool>, n: nat, parseInt: string -> Option<int>)
    requires 0 < n <= |entries| == |marks|
    ensures !marks[n - 1] ==> AssignmentsAt(entries, Chosen(marks, n), parseInt) == AssignmentsAt(entries, Chosen(marks, n - 1), parseInt)
    ensures marks[n - 1] ==> (AssignmentsAt(entries, Chosen(marks, n), parseInt)
      == AssignmentsAt(entries, Chosen(marks, n - 1), parseInt)
        + [Assign(entries[n - 1].change.code, Written(entries[n - 1].change, parseInt))])
  {
  }

  lemma LastValueSnoc(before: seq<Assignment>, last: Assignment, key: string)
    ensures Listed(before + [last], key) <==> Listed(before, key) || last.code == key
    ensures last.code == key ==> LastValue(before + [last], key) == last.value
    ensures last.code != key && Listed(before, key) ==> LastValue(before + [last], key) == LastValue(before, key)
  {
    ListedSnoc(before + [last], key);
    assert (before + [last])[..|before|] == before;
  }

  lemma {:induction false} GroupIsChosen(entries: seq<Entry>, k: Kind, n: nat)
    requires n <= |entries|
    ensures Group(entries, k, n) == Chosen(BatchMarks(entries, k), n)
  {
    if n > 0 {
      GroupIsChosen(entries, k, n - 1);
    }
  }

  lemma {:induction false} LatestUnmarked(entries: seq<Entry>, marks: seq<bool>, key: string, n: nat, v: Value,
      parseInt: string -> Option<int>)
    requires n <= |entries| == |marks|
    requires forall i :: 0 <= i < n ==> !marks[i]
    ensures Latest(entries, marks, key, n, v, parseInt) == v
  {
    if n > 0 {
      LatestUnmarked(entries, marks, key, n - 1, v, parseInt);
    }
  }

  /** Batch changes come after the earlier ones they do not include: running the batch on top is the same as one list. */
  lemma {:induction false} LatestMerges(entries: seq<Entry>, earlier: seq<bool>, batch: seq<bool>, both: seq<bool>,
      key: string, n: nat, v: Value,
                                        parseInt: string -> Option<int>)
    requires n <= |entries| == |earlier| == |batch| == |both|
    requires forall i :: 0 <= i < |both| ==> both[i] == (earlier[i] || batch[i])
    requires forall i, j :: 0 <= i < |both| && 0 <= j < |both| && earlier[i] && !batch[i] && batch[j] ==> i < j
    ensures Latest(entries, both, key, n, v, parseInt) == Latest(entries, batch, key, n,
      Latest(entries, earlier, key, n, v, parseInt), parseInt)
  {
    if n > 0 {
      LatestMerges(entries, earlier, batch, both, key, n - 1, v, parseInt);
      if earlier[n - 1] && !batch[n - 1] {
        LatestUnmarked(entries, batch, key, n, Latest(entries, earlier, key, n, v, parseInt), parseInt);
      } else if batch[n - 1] && entries[n - 1].change.code != key {
        LatestBase(entries, earlier, key, n, v, parseInt);
      }
    }
  }

  lemma LatestBase(entries: seq<Entry>, marks: seq<bool>, key: string, n: nat, v: Value, parseInt: string -> Option<int>)
    requires 0 < n <= |entries| == |marks| && entries[n - 1].change.code != key
    ensures Latest(entries, marks, key, n, v, parseInt) == Latest(entries, marks, key, n - 1, v, parseInt)
  {
  }

  // ---- invariants of a run ----

  /** Within a kind, rows are marked synced oldest first. */
  ghost predicate SyncedInOrder(entries: seq<Entry>) {
    forall i, j :: 0 <= i < j < |entries| && entries[i].change.kind == entries[j].change.kind && entries[j].synced ==> entries[i].synced
  }

  ghost predicate HistoryInv(s: State) {
    && |s.history| == |s.entries|
    && (forall i, c :: 0 <= i < |s.history| && c in s.history[i] ==> s.entries[i].change.kind == KindOf(c))
    && (forall i, c :: 0 <= i < |s.history| && c in s.history[i] ==> s.entries[i].synced || InBatch(s.entries, i))
    && (forall i :: 0 <= i < |s.history| && s.entries[i].synced ==>
      Primary(s.entries[i].change.kind).Some? && Primary(s.entries[i].change.kind).value in s.history[i])
  }

  lemma {:induction false} UnsyncedGrows(entries: seq<Entry>, m: nat, n: nat)
    requires m <= n <= |entries|
    ensures Unsynced(entries, m) <= Unsynced(entries, n)
  {
    if m < n {
      UnsyncedGrows(entries, m, n - 1);
    }
  }

  lemma {:induction false} MarkingShrinks(entries: seq<Entry>, f: Faults, n: nat)
    requires n <= |entries|
    ensures Unsynced(Marked(entries, f), n) <= Unsynced(entries, n)
  {
    if n > 0 {
      MarkingShrinks(entries, f, n - 1);
    }
  }

  lemma {:induction false} UnsyncedPrefix(entries: seq<Entry>, more: seq<Entry>, n: nat)
    requires n <= |entries|
    ensures Unsynced(entries + more, n) == Unsynced(entries, n)
  {
    if n > 0 {
      UnsyncedPrefix(entries, more, n - 1);
    }
  }

  lemma PassKeepsOrder(entries: seq<Entry>, f: Faults)
    requires SyncedInOrder(entries)
    ensures SyncedInOrder(Marked(entries, f))
  {
    var after := Marked(entries, f);
    forall i, j | 0 <= i < j < |after| && after[i].change.kind == after[j].change.kind && after[j].synced
      ensures after[i].synced
    {
      UnsyncedGrows(entries, i, j);
    }
  }

  lemma {:induction false} StepKeepsHistory(s: State, e: Event, parseInt: string -> Option<int>)
    requires HistoryInv(s) && SyncedInOrder(s.entries)
    ensures HistoryInv(Step(s, e, parseInt)) && SyncedInOrder(Step(s, e, parseInt).entries)
  {
    var s' := Step(s, e, parseInt);
    match e
    case Record(change) =>
      forall i, c | 0 <= i < |s'.history| && c in s'.history[i]
        ensures s'.entries[i].synced || InBatch(s'.entries, i)
      {
        UnsyncedPrefix(s.entries, [Entry(change, false)], i);
      }
    case Pass(f) =>
      PassKeepsOrder(s.entries, f);
      forall i, c | 0 <= i < |s'.history| && c in s'.history[i]
        ensures s'.entries[i].synced || InBatch(s'.entries, i)
      {
        MarkingShrinks(s.entries, f, i);
      }
  }

  /** The column is what the executed changes give when applied one by one, in the order they were made. */
  ghost predicate InStep(s: State, c: Column, start: Table, parseInt: string -> Option<int>)
    requires |s.history| == |s.entries|
  {
    s.tables.At(c) == OneByOne(AssignmentsAt(s.entries, Chosen(ExecutedMarks(s, c), |s.entries|), parseInt), start)
  }

  /** In the batch, every code of the column is listed first and last with one value. */
  ghost predicate BatchAgrees(s: State, c: Column, parseInt: string -> Option<int>) {
    forall key :: key in s.tables.At(c) ==> Agrees(BatchOf(s.entries, KindOf(c), parseInt), key)
  }

  lemma InStepIsLatest(s: State, c: Column, start: Table, parseInt: string -> Option<int>)
    requires |s.history| == |s.entries|
    ensures InStep(s, c, start, parseInt) <==>
      s.tables.At(c).Keys == start.Keys && forall key :: key in start ==>
        s.tables.At(c)[key] == Latest(s.entries, ExecutedMarks(s, c), key, |s.entries|, start[key], parseInt)
  {
    var group := AssignmentsAt(s.entries, Chosen(ExecutedMarks(s, c), |s.entries|), parseInt);
    OneByOneIsLastWins(group, start);
    forall key | key in start
      ensures OneByOne(group, start)[key] == Latest(s.entries, ExecutedMarks(s, c), key, |s.entries|, start[key], parseInt)
    {
      LatestIsLastValue(s.entries, ExecutedMarks(s, c), key, |s.entries|, start[key], parseInt);
    }
  }

  lemma PassColumnIsLatest(s: State, f: Faults, c: Column, key: string, parseInt: string -> Option<int>)
    requires c !in f.failing && BatchAgrees(s, c, parseInt) && key in s.tables.At(c)
    ensures key in ColumnAfter(s.entries, f, parseInt, c, s.tables.At(c))
    ensures ColumnAfter(s.entries, f, parseInt, c, s.tables.At(c))[key] ==
      Latest(s.entries, BatchMarks(s.entries, KindOf(c)), key, |s.entries|, s.tables.At(c)[key], parseInt)
  {
    assert Agrees(BatchOf(s.entries, KindOf(c), parseInt), key);
    GroupIsChosen(s.entries, KindOf(c), |s.entries|);
    LatestIsLastValue(s.entries, BatchMarks(s.entries, KindOf(c)), key, |s.entries|, s.tables.At(c)[key], parseInt);
  }

  /** Changes executed before but not in this batch are older than every change of the batch. */
  lemma BatchComesLast(s: State, c: Column, i: nat, j: nat)
    requires HistoryInv(s) && SyncedInOrder(s.entries)
    requires i < |s.entries| && j < |s.entries|
    requires c in s.history[i] && !BatchMarks(s.entries, KindOf(c))[i] && BatchMarks(s.entries, KindOf(c))[j]
    ensures i < j
  {
  }

  lemma PassKeepsInStep(s: State, f: Faults, c: Column, start: Table, parseInt: string -> Option<int>)
    requires HistoryInv(s) && SyncedInOrder(s.entries) && InStep(s, c, start, parseInt)
    requires c !in f.failing ==> BatchAgrees(s, c, parseInt)
    ensures InStep(Step(s, Pass(f), parseInt), c, start, parseInt)
  {
    var s' := Step(s, Pass(f), parseInt);
    var earlier, batch, both := ExecutedMarks(s, c), BatchMarks(s.entries, KindOf(c)), ExecutedMarks(s', c);
    InStepIsLatest(s, c, start, parseInt);
    FlushedColumns(s.entries, f, parseInt, s.tables, c);
    if c in f.failing {
      assert both == earlier;
    }
    forall key | key in start
      ensures s'.tables.At(c)[key] == Latest(s'.entries, both, key, |s.entries|, start[key], parseInt)
    {
      if c !in f.failing {
        PassColumnIsLatest(s, f, c, key, parseInt);
        forall i, j | 0 <= i < |both| && 0 <= j < |both| && earlier[i] && !batch[i] && batch[j] ensures i < j {
          BatchComesLast(s, c, i, j);
        }
        LatestMerges(s.entries, earlier, batch, both, key, |s.entries|, start[key], parseInt);
      }
      MarksDoNotMatter(s.entries, s'.entries, both, key, |s.entries|, start[key], parseInt);
    }
    InStepIsLatest(s', c, start, parseInt);
  }

  /** Latest reads the changes only, not the synced flags. */
  lemma {:induction false} MarksDoNotMatter(a: seq<Entry>, b: seq<Entry>, marks: seq<bool>, key: string, n: nat, v: Value,
                                            parseInt: string -> Option<int>)
    requires n <= |a| == |marks| && n <= |b| && |b| == |marks|
    requires forall i :: 0 <= i < |a| ==> a[i].change == b[i].change
    ensures Latest(a, marks, key, n, v, parseInt) == Latest(b, marks, key, n, v, parseInt)
  {
    if n > 0 {
      MarksDoNotMatter(a, b, marks, key, n - 1, v, parseInt);
    }
  }

  lemma RecordKeepsInStep(s: State, change: Change, c: Column, start: Table, parseInt: string -> Option<int>)
    requires |s.history| == |s.entries| && InStep(s, c, start, parseInt)
    ensures InStep(Step(s, Record(change), parseInt), c, start, parseInt)
  {
    var s' := Step(s, Record(change), parseInt);
    var marks, marks' := ExecutedMarks(s, c), ExecutedMarks(s', c);
    ChosenPrefix(marks, marks', |marks|);
    var ids := Chosen(marks, |marks|);
    assert Chosen(marks', |marks'|) == ids;
    assert AssignmentsAt(s'.entries, ids, parseInt) == AssignmentsAt(s.entries, ids, parseInt);
  }

  lemma {:induction false} ChosenPrefix(a: seq<bool>, b: seq<bool>, n: nat)
    requires n <= |a| && n <= |b| && forall i :: 0 <= i < n ==> a[i] == b[i]
    ensures Chosen(a, n) == Chosen(b, n)
  {
    if n > 0 {
      ChosenPrefix(a, b, n - 1);
    }
  }

  ghost predicate IsRun(states: seq<State>, events: seq<Event>, start: Tables, parseInt: string -> Option<int>) {
    && |states| == |events| + 1
    && states[0] == State([], start, [])
    && forall k :: 0 <= k < |events| ==> states[k + 1] == Step(states[k], events[k], parseInt)
  }

  /** Every pass of the run whose statement on c executes finds its batch agreeing. */
  ghost predicate PassesAgree(states: seq<State>, events: seq<Event>, c: Column, parseInt: string -> Option<int>) {
    forall k :: 0 <= k < |events| && k < |states| && events[k].Pass? && c !in events[k].faults.failing ==>
        BatchAgrees(states[k], c, parseInt)
  }

  lemma {:induction false} HistoryHolds(states: seq<State>, events: seq<Event>, start: Tables, parseInt: string -> Option<int>, k: nat)
    requires IsRun(states, events, start, parseInt) && k < |states|
    ensures HistoryInv(states[k]) && SyncedInOrder(states[k].entries)
  {
    if k > 0 {
      HistoryHolds(states, events, start, parseInt, k - 1);
      StepKeepsHistory(states[k - 1], events[k - 1], parseInt);
    }
  }

  /** Over every run of inserts and passes, with any statements and marks failing: as long as batches agree,
      each column holds what the executed changes give one by one in the order they were made. */
  lemma {:induction false} RunsMatchOneByOne(states: seq<State>, events: seq<Event>, start: Tables, c: Column,
      parseInt: string -> Option<int>, k: nat)
    requires IsRun(states, events, start, parseInt) && PassesAgree(states, events, c, parseInt) && k < |states|
    ensures |states[k].history| == |states[k].entries| && InStep(states[k], c, start.At(c), parseInt)
  {
    HistoryHolds(states, events, start, parseInt, k);
    if k == 0 {
      assert AssignmentsAt([], Chosen(ExecutedMarks(states[0], c), 0), parseInt) == [];
    } else {
      RunsMatchOneByOne(states, events, start, c, parseInt, k - 1);
      HistoryHolds(states, events, start, parseInt, k - 1);
      match events[k - 1]
      case Record(change) => RecordKeepsInStep(states[k - 1], change, c, start.At(c), parseInt);
      case Pass(f) => PassKeepsInStep(states[k - 1], f, c, start.At(c), parseInt);
    }
  }

  /** Once every change of a kind is marked, its primary column equals all of them applied one by one. */
  lemma DrainedColumn(states: seq<State>, events: seq<Event>, start: Tables, k: nat, c: Column, parseInt: string -> Option<int>)
    requires IsRun(states, events, start, parseInt) && PassesAgree(states, events, c, parseInt) && k < |states|
    requires Primary(KindOf(c)) == Some(c)
    requires forall i :: 0 <= i < |states[k].entries| && states[k].entries[i].change.kind == KindOf(c) ==> states[k].entries[i].synced
    ensures var entries := states[k].entries;
      states[k].tables.At(c) == OneByOne(AssignmentsAt(entries, Chosen(KindMarks(entries, KindOf(c)), |entries|), parseInt), start.At(c))
  {
    HistoryHolds(states, events, start, parseInt, k);
    RunsMatchOneByOne(states, events, start, c, parseInt, k);
    assert ExecutedMarks(states[k], c) == KindMarks(states[k].entries, KindOf(c));
  }

  // ---- copies that are missed ----

  /** Pass m of the run runs the statement on c with change i in its batch. */
  ghost predicate RunsAt(states: seq<State>, events: seq<Event>, c: Column, i: nat, m: nat)
    requires |states| == |events| + 1 && m < |events|
  {
    events[m].Pass? && Executes(states[m].entries, events[m].faults, c, i)
  }

  /** Pass m marks change i, and neither it nor any earlier pass with the change in its batch got the statement on c through. */
  ghost predicate MarkedBefore(states: seq<State>, events: seq<Event>, c: Column, i: nat, m: nat)
    requires |states| == |events| + 1 && m < |events|
  {
    && events[m].Pass? && Marks(states[m].entries, events[m].faults, i)
    && forall j :: 0 <= j <= m && events[j].Pass? && InBatch(states[j].entries, i) ==> c in events[j].faults.failing
  }

  ghost predicate MarkedBeforeRun(states: seq<State>, events: seq<Event>, c: Column, i: nat, k: nat)
    requires |states| == |events| + 1 && k < |states|
  {
    exists m :: 0 <= m < k && MarkedBefore(states, events, c, i, m)
  }

  /** A change has a column in its history exactly when some pass ran that statement with it. */
  lemma {:induction false} HistoryIff(states: seq<State>, events: seq<Event>, start: Tables, k: nat, i: nat, c: Column,
      parseInt: string -> Option<int>)
    requires IsRun(states, events, start, parseInt) && k < |states| && i < |states[k].entries|
    ensures |states[k].history| == |states[k].entries|
    ensures c in states[k].history[i] <==> exists m :: 0 <= m < k && RunsAt(states, events, c, i, m)
  {
    HistoryHolds(states, events, start, parseInt, k);
    if k > 0 {
      HistoryHolds(states, events, start, parseInt, k - 1);
      if i < |states[k - 1].entries| {
        HistoryIff(states, events, start, k - 1, i, c, parseInt);
        assert c in states[k].history[i] <==> c in states[k - 1].history[i] || RunsAt(states, events, c, i, k - 1);
      } else {
        forall m | 0 <= m < k ensures !RunsAt(states, events, c, i, m) {
          EntriesGrow(states, events, start, m, k - 1, parseInt);
        }
      }
    }
  }

  lemma {:induction false} EntriesGrow(states: seq<State>, events: seq<Event>, start: Tables, j: nat, k: nat,
      parseInt: string -> Option<int>)
    requires IsRun(states, events, start, parseInt) && j <= k < |states|
    ensures |states[j].entries| <= |states[k].entries|
    ensures forall i :: 0 <= i < |states[j].entries| ==> states[j].entries[i].change == states[k].entries[i].change
    ensures forall i :: 0 <= i < |states[j].entries| && states[j].entries[i].synced ==> states[k].entries[i].synced
    decreases k - j
  {
    if j < k {
      EntriesGrow(states, events, start, j, k - 1, parseInt);
    }
  }

  /** A synced change was marked by a pass, the first one after which it is synced. */
  lemma {:induction false} MarkingPass(states: seq<State>, events: seq<Event>, start: Tables, k: nat, i: nat,
      parseInt: string -> Option<int>)
    returns (m: nat)
    requires IsRun(states, events, start, parseInt) && k < |states| && i < |states[k].entries| && states[k].entries[i].synced
    ensures m < k && events[m].Pass? && Marks(states[m].entries, events[m].faults, i)
    ensures i < |states[m + 1].entries| && states[m + 1].entries[i].synced
  {
    if i < |states[k - 1].entries| && states[k - 1].entries[i].synced {
      m := MarkingPass(states, events, start, k - 1, i, parseInt);
    } else {
      m := k - 1;
    }
  }

  /** The exact condition, over every run: a synced change has the column in its history unless a pass marked it before the
      statement had got through with it. */
  lemma CopiedIffNotMarkedBefore(states: seq<State>, events: seq<Event>, start: Tables, k: nat, i: nat, c: Column,
      parseInt: string -> Option<int>)
    requires IsRun(states, events, start, parseInt) && k < |states| && i < |states[k].entries|
    requires states[k].entries[i].synced && states[k].entries[i].change.kind == KindOf(c)
    ensures |states[k].history| == |states[k].entries|
    ensures c in states[k].history[i] <==> !MarkedBeforeRun(states, events, c, i, k)
  {
    HistoryIff(states, events, start, k, i, c, parseInt);
    if c in states[k].history[i] {
      var j :| 0 <= j < k && RunsAt(states, events, c, i, j);
      forall m | 0 <= m < k ensures !MarkedBefore(states, events, c, i, m) {
        RunThenNotMarkedBefore(states, events, start, j, m, i, c, parseInt);
      }
    } else {
      var m := MarkingPass(states, events, start, k, i, parseInt);
      forall j | 0 <= j <= m && events[j].Pass? && InBatch(states[j].entries, i)
        ensures c in events[j].faults.failing
      {
        EntriesGrow(states, events, start, j, k, parseInt);
        assert !RunsAt(states, events, c, i, j);
      }
      assert MarkedBefore(states, events, c, i, m);
    }
  }

  lemma RunThenNotMarkedBefore(states: seq<State>, events: seq<Event>, start: Tables, j: nat, m: nat, i: nat, c: Column,
      parseInt: string -> Option<int>)
    requires IsRun(states, events, start, parseInt) && j < |events| && m < |events| && RunsAt(states, events, c, i, j)
    ensures !MarkedBefore(states, events, c, i, m)
  {
    if m < j && events[m].Pass? && Marks(states[m].entries, events[m].faults, i) {
      EntriesGrow(states, events, start, m + 1, j, parseInt);
      assert false;
    }
  }

  /** The changes of a column's kind that were not marked before its statement got through with them. */
  ghost function KeptMarks(states: seq<State>, events: seq<Event>, c: Column, k: nat): (marks: seq<bool>)
    requires |states| == |events| + 1 && k < |states|
    ensures |marks| == |states[k].entries|
  {
    var entries := states[k].entries;
    seq(|entries|, i requires 0 <= i < |entries| =>
      entries[i].change.kind == KindOf(c) && !MarkedBeforeRun(states, events, c, i, k))
  }

  /** Once every change of a kind is marked, any column of the kind, a copy included, equals one by one exactly the changes that
      were not marked before its statement got through. */
  lemma DrainedIsKept(states: seq<State>, events: seq<Event>, start: Tables, k: nat, c: Column, parseInt: string -> Option<int>)
    requires IsRun(states, events, start, parseInt) && PassesAgree(states, events, c, parseInt) && k < |states|
    requires forall i :: 0 <= i < |states[k].entries| && states[k].entries[i].change.kind == KindOf(c) ==> states[k].entries[i].synced
    ensures var entries := states[k].entries;
      states[k].tables.At(c) == OneByOne(AssignmentsAt(entries, Chosen(KeptMarks(states, events, c, k), |entries|), parseInt), start.At(c))
  {
    HistoryHolds(states, events, start, parseInt, k);
    RunsMatchOneByOne(states, events, start, c, parseInt, k);
    var executed, kept := ExecutedMarks(states[k], c), KeptMarks(states, events, c, k);
    forall i | 0 <= i < |executed| ensures executed[i] == kept[i] {
      if states[k].entries[i].change.kind == KindOf(c) {
        CopiedIffNotMarkedBefore(states, events, start, k, i, c, parseInt);
      }
    }
    assert executed == kept;
  }

  /** When no change was marked early, the copy column too equals all changes of the kind one by one. */
  lemma DrainedCopyColumn(states: seq<State>, events: seq<Event>, start: Tables, k: nat, c: Column, parseInt: string -> Option<int>)
    requires IsRun(states, events, start, parseInt) && PassesAgree(states, events, c, parseInt) && k < |states|
    requires forall i :: 0 <= i < |states[k].entries| && states[k].entries[i].change.kind == KindOf(c) ==>
      states[k].entries[i].synced && !MarkedBeforeRun(states, events, c, i, k)
    ensures var entries := states[k].entries;
      states[k].tables.At(c) == OneByOne(AssignmentsAt(entries, Chosen(KindMarks(entries, KindOf(c)), |entries|), parseInt), start.At(c))
  {
    DrainedIsKept(states, events, start, k, c, parseInt);
    assert KeptMarks(states, events, c, k) == KindMarks(states[k].entries, KindOf(c));
  }

  /** A change marked synced while its copy into file_records failed is never copied later. */
  lemma {:induction false} MissedCopyIsNeverMade(states: seq<State>, events: seq<Event>, start: Tables, k: nat, m: nat, i: nat, c: Column,
                                                 parseInt: string -> Option<int>)
    requires IsRun(states, events, start, parseInt) && k <= m < |states|
    requires |states[k].history| == |states[k].entries| && i < |states[k].entries|
    requires states[k].entries[i].synced && c !in states[k].history[i]
    ensures i < |states[m].entries| == |states[m].history| && states[m].entries[i].synced && c !in states[m].history[i]
    decreases m
  {
    if k < m {
      MissedCopyIsNeverMade(states, events, start, k, m - 1, i, c, parseInt);
    }
  }

  /** One status change whose copy into file_records fails while the codes table is written. */
  lemma MissedCopyPass(s: State, f: Faults, parseInt: string -> Option<int>)
    requires s.entries == [Entry(Change("a", Availability, "off"), false)] && s.history == [{}] && f == Faults({FilesStatus}, false)
    ensures var s' := Step(s, Pass(f), parseInt);
      && s'.entries == [Entry(Change("a", Availability, "off"), true)]
      && CodesStatus in s'.history[0] && FilesStatus !in s'.history[0]
      && s'.tables.At(FilesStatus) == s.tables.At(FilesStatus)
  {
    FlushedColumns(s.entries, f, parseInt, s.tables, FilesStatus);
    assert Marks(s.entries, f, 0);
    assert Executes(s.entries, f, CodesStatus, 0) && !Executes(s.entries, f, FilesStatus, 0);
  }

  /** It happens: the codes table gets the new status, the copy fails, the row is marked. */
  lemma CopyCanBeMissed(start: Tables, parseInt: string -> Option<int>) returns (states: seq<State>, events: seq<Event>)
    ensures IsRun(states, events, start, parseInt) && |states| == 3
    ensures states[2].entries == [Entry(Change("a", Availability, "off"), true)]
    ensures |states[2].history| == 1 && CodesStatus in states[2].history[0] && FilesStatus !in states[2].history[0]
    ensures states[2].tables.At(FilesStatus) == start.At(FilesStatus)
  {
    var f := Faults({FilesStatus}, false);
    events := [Record(Change("a", Availability, "off")), Pass(f)];
    var s0 := State([], start, []);
    var s1 := State([Entry(Change("a", Availability, "off"), false)], start, [{}]);
    assert Step(s0, events[0], parseInt) == s1;
    MissedCopyPass(s1, f, parseInt);
    states := [s0, s1, Step(s1, Pass(f), parseInt)];
  }
}
