/** The two write-behind buffers: request counts accumulated in memory and decode logs accumulated in SQLite,
    both flushed to the remote database by background loops whose writes may fail before or after taking effect. */
module FlushBuffers {

  // ---- request counts ----

  type Counts = map<string, nat>

  /** counts.get(code, 0) */
  function Of(counts: Counts, code: string): nat {
    if code in counts then counts[code] else 0
  }

  datatype Option<T> = None | Some(value: T)

  /** How the bulk update ended. Late: it took effect, then the update call or the cache invalidation raised. */
  datatype UpdateOutcome = Applied | Failed | Late

  /** UPDATE ... SET request_count = request_count + CASE ...: only codes that have a row. */
  function Added(table: Counts, batch: Counts): Counts {
    map code | code in table :: table[code] + Of(batch, code)
  }

  function Merged(buffer: Counts, batch: Counts): Counts {
    map code | code in buffer.Keys + batch.Keys :: Of(buffer, code) + Of(batch, code)
  }

  ghost function Repeats(outcome: UpdateOutcome, batch: Counts, table: Counts, code: string): nat {
    if outcome.Late? && code in table then Of(batch, code) else 0
  }

  ghost function Loses(outcome: UpdateOutcome, batch: Counts, table: Counts, code: string): nat {
    if outcome.Applied? && code !in table then Of(batch, code) else 0
  }

  ghost function LostAfter(lost: string -> nat, outcome: UpdateOutcome, batch: Counts, table: Counts): string -> nat {
    code => lost(code) + Loses(outcome, batch, table, code)
  }

  ghost function RepeatedAfter(repeated: string -> nat, outcome: UpdateOutcome, batch: Counts, table: Counts): string -> nat {
    code => repeated(code) + Repeats(outcome, batch, table, code)
  }

  /** Whatever the outcome, the batch ends up stored, buffered again or lost, and twice only when it was late. */
  lemma SettleBalances(outcome: UpdateOutcome, batch: Counts, table: Counts, buffer: Counts, code: string)
    ensures Of(if outcome.Failed? then table else Added(table, batch), code)
      + Of(if outcome.Applied? then buffer else Merged(buffer, batch), code)
      + Loses(outcome, batch, table, code) == Of(table, code) + Of(buffer, code) + Of(batch, code) + Repeats(outcome, batch, table, code)
  {
  }

  ghost predicate Balanced(initial: Counts, table: Counts, buffer: Counts, flying: Counts,
                           increments: string -> nat, lost: string -> nat, repeated: string -> nat)
  {
    forall code :: Of(table, code) + Of(buffer, code) + Of(flying, code) + lost(code)
      == Of(initial, code) + increments(code) + repeated(code)
  }

  lemma SettleKeepsBalance(initial: Counts, table: Counts, buffer: Counts, batch: Counts, increments: string -> nat, lost: string -> nat,
                           repeated: string -> nat, outcome: UpdateOutcome)
    requires Balanced(initial, table, buffer, batch, increments, lost, repeated)
    ensures Balanced(initial, if outcome.Failed? then table else Added(table, batch),
      if outcome.Applied? then buffer else Merged(buffer, batch),
                     map[], increments, LostAfter(lost, outcome, batch, table), RepeatedAfter(repeated, outcome, batch, table))
  {
    var lost', repeated' := LostAfter(lost, outcome, batch, table), RepeatedAfter(repeated, outcome, batch, table);
    var table' := if outcome.Failed? then table else Added(table, batch);
    var buffer' := if outcome.Applied? then buffer else Merged(buffer, batch);
    forall code
      ensures Of(table', code) + Of(buffer', code) + lost'(code) == Of(initial, code) + increments(code) + repeated'(code)
    {
      SettleBalances(outcome, batch, table, buffer, code);
    }
  }

  class RequestCounts {
    var buffer: Counts
    var inFlight: Option<Counts>
    var table: Counts
    /** History: the increments made, the counts applied to codes without a row or dropped by a crash, and those applied twice. */
    ghost var increments: string -> nat
    ghost var lost: string -> nat
    ghost var repeated: string -> nat

    /** Conservation: what is stored, buffered and in flight is what was counted, up to losses and repetitions.
        initial: the stored counts at the start. */
    ghost predicate Conserves(initial: Counts)
      reads this
    {
      && table.Keys == initial.Keys
      && Balanced(initial, table, buffer, if inFlight.Some? then inFlight.value else map[], increments, lost, repeated)
    }

    constructor (table: Counts)
      ensures Conserves(table) && this.table == table && buffer == map[] && inFlight == None
      ensures forall code :: increments(code) == lost(code) == repeated(code) == 0
    {
      buffer, inFlight, this.table := map[], None, table;
      increments, lost, repeated := _ => 0, _ => 0, _ => 0;
    }

    method Increment(code: string, ghost initial: Counts)
      requires Conserves(initial)
      modifies this`buffer, this`increments
      ensures Conserves(initial)
      ensures forall other :: increments(other) == old(increments)(other) + if other == code then 1 else 0
    {
      buffer := buffer[code := Of(buffer, code) + 1];
      ghost var before := increments;
      increments := other => before(other) + if other == code then 1 else 0;
    }

    /** Under the lock: the buffer becomes the batch. */
    method TakeBatch(ghost initial: Counts)
      requires Conserves(initial) && inFlight == None
      modifies this`buffer, this`inFlight
      ensures Conserves(initial) && buffer == map[]
      ensures inFlight == if old(buffer) == map[] then None else Some(old(buffer))
    {
      if buffer == map[] {
        return;
      }
      inFlight := Some(buffer);
      buffer := map[];
    }

    /** The update and, when anything raised, the merge of the batch back into the buffer. */
    method Settle(outcome: UpdateOutcome, ghost initial: Counts)
      requires Conserves(initial) && inFlight.Some?
      modifies this`buffer, this`inFlight, this`table, this`lost, this`repeated
      ensures Conserves(initial) && inFlight == None
      ensures buffer == if outcome.Applied? then old(buffer) else Merged(old(buffer), old(inFlight).value)
      ensures table == if outcome.Failed? then old(table) else Added(old(table), old(inFlight).value)
      ensures lost == LostAfter(old(lost), outcome, old(inFlight).value, old(table))
      ensures repeated == RepeatedAfter(old(repeated), outcome, old(inFlight).value, old(table))
    {
      var batch := inFlight.value;
      ghost var rows := table;
      if !outcome.Failed? {
        table := Added(table, batch);
      }
      if !outcome.Applied? {
        MergeBack(batch);
      }
      lost := LostAfter(lost, outcome, batch, rows);
      repeated := RepeatedAfter(repeated, outcome, batch, rows);
      inFlight := None;
      SettleKeepsBalance(initial, rows, old(buffer), batch, increments, old(lost), old(repeated), outcome);
    }

    /** for code, cnt in batch.items(): buffer[code] = buffer.get(code, 0) + cnt */
    method MergeBack(batch: Counts)
      modifies this`buffer
      ensures buffer == Merged(old(buffer), batch)
    {
      var todo := batch.Keys;
      while todo != {}
        invariant todo <= batch.Keys
        invariant buffer.Keys == old(buffer).Keys + (batch.Keys - todo)
        invariant forall code :: code in buffer ==> buffer[code] == Of(old(buffer), code) + if code in todo then 0 else Of(batch, code)
      {
        var code :| code in todo;
        buffer := buffer[code := Of(buffer, code) + batch[code]];
        todo := todo - {code};
      }
    }

    /** The process dies: what it held in memory is gone. */
    method Crash(ghost initial: Counts)
      requires Conserves(initial)
      modifies this`buffer, this`inFlight, this`lost
      ensures Conserves(initial) && buffer == map[] && inFlight == None
    {
      ghost var before, held, flying := lost, buffer, if inFlight.Some? then inFlight.value else map[];
      lost := code => before(code) + Of(held, code) + Of(flying, code);
      buffer, inFlight := map[], None;
    }
  }

  // ---- decode logs ----

  const FETCH := 200
  const BATCH := 100

  /** Row of decode_log_buffer; in the remote table the id only tells which row a copy came from. */
  datatype Log = Log(id: nat, text: string)

  /** How one batch ended. Inserted says whether the remote insert took effect, raised whether it raised;
      removed whether the local delete took effect, deleteRaised whether it raised. */
  datatype BatchOutcome = BatchOutcome(inserted: bool, raised: bool, removed: bool, deleteRaised: bool) {
    /** A call that does not raise took effect. */
    predicate Honest() {
      (!raised ==> inserted) && (!deleteRaised ==> removed)
    }

    /** The pass goes on to the next batch. */
    predicate GoesOn() {
      !raised && removed && !deleteRaised
    }
  }

  function Least(a: nat, b: nat): nat {
    if a <= b then a else b
  }

  /** How many of the fetched rows a pass removes when it reaches batch k: it goes on past a batch only when the insert did
      not raise and the delete took effect without raising. */
  function RemovedFrom(outcomes: nat -> BatchOutcome, fetched: nat, k: nat): nat
    decreases fetched - k * BATCH
  {
    if fetched <= k * BATCH then fetched
    else if outcomes(k).raised || !outcomes(k).removed then k * BATCH
    else if outcomes(k).deleteRaised then Least((k + 1) * BATCH, fetched)
    else RemovedFrom(outcomes, fetched, k + 1)
  }

  /** How many of them reach the remote table: a batch that was inserted but kept is the last one to land. */
  function LandedFrom(outcomes: nat -> BatchOutcome, fetched: nat, k: nat): nat
    decreases fetched - k * BATCH
  {
    if fetched <= k * BATCH then fetched
    else if outcomes(k).raised || !outcomes(k).removed then
      if outcomes(k).inserted then Least((k + 1) * BATCH, fetched) else k * BATCH
    else if outcomes(k).deleteRaised then Least((k + 1) * BATCH, fetched)
    else LandedFrom(outcomes, fetched, k + 1)
  }

  /** A pass removes and lands every fetched row when all its batches go through, and otherwise ends at the first batch that
      does not: that batch alone may land and stay. */
  lemma {:induction false} PassEnds(outcomes: nat -> BatchOutcome, fetched: nat, k: nat, n: nat)
    requires k <= n && forall j: nat :: k <= j < n ==> outcomes(j).GoesOn()
    requires outcomes(n).Honest()
    ensures var removed, landed := RemovedFrom(outcomes, fetched, k), LandedFrom(outcomes, fetched, k);
      if fetched <= n * BATCH then removed == landed == fetched
      else !outcomes(n).GoesOn() ==> (removed, landed) == EndsAt(outcomes(n), fetched, n)
    decreases n - k
  {
    if k < n && k * BATCH < fetched {
      PassEnds(outcomes, fetched, k + 1, n);
    }
  }

  /** How far a pass got that ended at batch n with this outcome. */
  function EndsAt(o: BatchOutcome, fetched: nat, n: nat): (nat, nat) {
    var last := Least((n + 1) * BATCH, fetched);
    (if o.raised || !o.removed then n * BATCH else last, if o.inserted then last else n * BATCH)
  }

  /** Where a pass that ended at batch n leaves what: both forms, and that only a batch that was inserted and not deleted counts twice. */
  lemma KeptBatch(outcomes: nat -> BatchOutcome, fetched: nat, n: nat, removed: nat, landed: nat)
    requires (forall j: nat :: j < n ==> outcomes(j).GoesOn()) && outcomes(n).Honest()
    requires if fetched <= n * BATCH then removed == landed == fetched
             else !outcomes(n).GoesOn() && (removed, landed) == EndsAt(outcomes(n), fetched, n)
    ensures removed == RemovedFrom(outcomes, fetched, 0) && landed == LandedFrom(outcomes, fetched, 0)
    ensures removed < landed ==>
      removed % 100 == 0 && outcomes(removed / 100).inserted && (outcomes(removed / 100).raised || !outcomes(removed / 100).removed)
    ensures (forall k: nat :: outcomes(k).GoesOn()) ==> removed == landed == fetched
  {
    PassEnds(outcomes, fetched, 0, n);
    assert (n * BATCH) / 100 == n && (n * BATCH) % 100 == 0;
  }

  predicate IdsIncrease(logs: seq<Log>) {
    forall i, j :: 0 <= i < j < |logs| ==> logs[i].id < logs[j].id
  }

  function Copies(logs: seq<Log>, id: nat): nat {
    if logs == [] then 0 else Copies(logs[..|logs| - 1], id) + if logs[|logs| - 1].id == id then 1 else 0
  }

  predicate HasId(logs: seq<Log>, id: nat) {
    exists i :: 0 <= i < |logs| && logs[i].id == id
  }

  lemma {:induction false} CopiesConcat(a: seq<Log>, b: seq<Log>, id: nat)
    ensures Copies(a + b, id) == Copies(a, id) + Copies(b, id)
  {
    if b == [] {
      assert a + b == a;
    } else {
      CopiesConcat(a, b[..|b| - 1], id);
      assert (a + b)[..|a + b| - 1] == a + b[..|b| - 1];
    }
  }

  lemma {:induction false} CopiesOfIncreasing(logs: seq<Log>, id: nat)
    requires IdsIncrease(logs)
    ensures Copies(logs, id) == if HasId(logs, id) then 1 else 0
  {
    if logs != [] {
      var front := logs[..|logs| - 1];
      CopiesOfIncreasing(front, id);
      if HasId(logs, id) && logs[|logs| - 1].id != id {
        var i :| 0 <= i < |logs| && logs[i].id == id;
        assert front[i].id == id;
      }
    }
  }

  lemma HasIdConcat(a: seq<Log>, b: seq<Log>, id: nat)
    ensures HasId(a + b, id) <==> HasId(a, id) || HasId(b, id)
  {
    if HasId(a, id) {
      var i :| 0 <= i < |a| && a[i].id == id;
      assert (a + b)[i].id == id;
    }
    if HasId(b, id) {
      var i :| 0 <= i < |b| && b[i].id == id;
      assert (a + b)[|a| + i].id == id;
    }
  }

  class DecodeLogs {
    var buffer: seq<Log>
    var remote: seq<Log>
    var nextId: nat
    /** History: how often a row's batch reached the remote table while the row stayed in the buffer. */
    ghost var repeated: nat -> nat

    /** Every row that ever arrived has exactly one copy for its removal and one for every time it was written and kept. */
    ghost predicate Valid()
      reads this
    {
      && IdsIncrease(buffer) && (forall i :: 0 <= i < |buffer| ==> buffer[i].id < nextId)
      && Accounted(buffer, remote, nextId, repeated)
    }

    constructor ()
      ensures Valid() && buffer == remote == [] && nextId == 0 && forall id :: repeated(id) == 0
    {
      buffer, remote, nextId := [], [], 0;
      repeated := _ => 0;
    }

    method Arrive(text: string)
      requires Valid()
      modifies this
      ensures Valid() && buffer == old(buffer) + [Log(old(nextId), text)] && remote == old(remote) && repeated == old(repeated)
    {
      forall id: nat ensures HasId(buffer + [Log(nextId, text)], id) <==> HasId(buffer, id) || id == nextId {
        HasIdConcat(buffer, [Log(nextId, text)], id);
        assert [Log(nextId, text)][0].id == nextId;
      }
      buffer := buffer + [Log(nextId, text)];
      nextId := nextId + 1;
    }

    /** One pass over at most FETCH rows in batches of BATCH, stopped by the first insert or delete that raises.
        removed: rows gone from the buffer; landed: rows that reached the remote table. */
    method Flush(outcomes: nat -> BatchOutcome) returns (removed: nat, landed: nat)
      requires Valid() && forall k :: outcomes(k).Honest()
      modifies this
      ensures Valid() && nextId == old(nextId)
      ensures var fetched := Least(|old(buffer)|, FETCH);
        && removed == RemovedFrom(outcomes, fetched, 0) && landed == LandedFrom(outcomes, fetched, 0)
        && ((forall k :: outcomes(k).GoesOn()) ==> removed == landed == fetched)
      ensures removed <= landed <= removed + BATCH && landed <= |old(buffer)| && landed <= FETCH
      ensures buffer == old(buffer)[removed..]
      ensures remote == old(remote) + old(buffer)[..landed]
      ensures repeated == RepeatedWith(old(repeated), old(buffer)[removed..landed])
      // only a batch that was inserted and not deleted is both in the buffer and in the remote table
      ensures removed < landed ==>
        removed % 100 == 0 && outcomes(removed / 100).inserted && (outcomes(removed / 100).raised || !outcomes(removed / 100).removed)
    {
      ghost var before, copies := buffer, remote;
      ghost var n;
      removed, landed, n := FlushBatches(outcomes);
      KeptBatch(outcomes, Least(|before|, FETCH), n, removed, landed);
      LawAfterFlush(before, copies, removed, landed, nextId, repeated);
      repeated := RepeatedWith(repeated, before[removed..landed]);
    }

    /** Every row that arrived is in the buffer or in the remote table, with at most one copy more than the times its
        batch was written and kept. */
    lemma NothingLost(id: nat)
      requires Valid() && id < nextId
      ensures HasId(buffer, id) || Copies(remote, id) > 0
      ensures repeated(id) <= Copies(remote, id) <= 1 + repeated(id)
    {
      assert Accounted(buffer, remote, nextId, repeated);
    }

    /** One batch: insert it, then delete it by its ids; the delete runs only after an insert that did not raise. */
    method WriteBatch(batch: seq<Log>, o: BatchOutcome) returns (deleted: bool)
      requires IdsIncrease(buffer) && batch <= buffer && o.Honest()
      modifies this`buffer, this`remote
      ensures remote == if o.inserted then old(remote) + batch else old(remote)
      ensures deleted <==> !o.raised && o.removed
      ensures buffer == if deleted then old(buffer)[|batch|..] else old(buffer)
    {
      if o.inserted {
        remote := remote + batch;
      }
      if o.raised || !o.removed {
        return false;
      }
      assert batch == buffer[..|batch|];
      DeletePrefix(buffer, |batch|);
      buffer := DeleteIds(buffer, batch);
      return true;
    }

    /** The batch of the rows from removed up to last. */
    method WriteNext(ghost before: seq<Log>, ghost copies: seq<Log>, rows: seq<Log>, removed: nat, last: nat, o: BatchOutcome)
      returns (deleted: bool)
      requires IdsIncrease(before) && |rows| <= |before| && rows == before[..|rows|] && removed <= last <= |rows| && o.Honest()
      requires buffer == before[removed..] && remote == copies + before[..removed]
      modifies this`buffer, this`remote
      ensures deleted <==> !o.raised && o.removed
      ensures buffer == before[if deleted then last else removed..]
      ensures remote == copies + before[..if o.inserted then last else removed]
    {
      NextBatch(before, removed, last, |rows|);
      deleted := WriteBatch(rows[removed..last], o);
      LandedBatch(before, copies, removed, last, |rows|, o.inserted);
    }

    method FlushBatches(outcomes: nat -> BatchOutcome) returns (removed: nat, landed: nat, n: nat)
      requires IdsIncrease(buffer) && forall k :: outcomes(k).Honest()
      modifies this`buffer, this`remote
      ensures var fetched := Least(|old(buffer)|, FETCH);
        && (forall j: nat :: j < n ==> outcomes(j).GoesOn())
        && if fetched <= n * BATCH then removed == landed == fetched
           else !outcomes(n).GoesOn() && (removed, landed) == EndsAt(outcomes(n), fetched, n)
      ensures removed <= landed <= removed + BATCH && landed <= |old(buffer)| && landed <= FETCH
      ensures buffer == old(buffer)[removed..]
      ensures remote == old(remote) + old(buffer)[..landed]
    {
      var rows := if |buffer| <= FETCH then buffer else buffer[..FETCH];
      ghost var before, copies := buffer, remote;
      removed, landed, n := 0, 0, 0;
      while removed < |rows|
        invariant removed == landed == Least(n * BATCH, |rows|) && |rows| <= |before|
        invariant buffer == before[removed..] && remote == copies + before[..landed]
        invariant forall j: nat :: j < n ==> outcomes(j).GoesOn()
        decreases |rows| - removed
      {
        var last := if removed + BATCH <= |rows| then removed + BATCH else |rows|;
        var deleted := WriteNext(before, copies, rows, removed, last, outcomes(n));
        landed := if outcomes(n).inserted then last else removed;
        if !deleted {
          break;
        }
        removed := last;
        if outcomes(n).deleteRaised {
          break;
        }
        n := n + 1;
      }
    }
  }

  lemma NextBatch(before: seq<Log>, removed: nat, last: nat, fetched: nat)
    requires IdsIncrease(before) && removed <= last <= fetched <= |before|
    ensures IdsIncrease(before[removed..]) && before[..fetched][removed..last] <= before[removed..]
    ensures before[removed..][last - removed..] == before[last..]
  {
  }

  lemma LandedBatch(before: seq<Log>, copies: seq<Log>, removed: nat, last: nat, fetched: nat, inserted: bool)
    requires removed <= last <= fetched <= |before|
    ensures copies + before[..removed] + (if inserted then before[..fetched][removed..last] else [])
      == copies + before[..if inserted then last else removed]
  {
    assert before[..removed] + before[..fetched][removed..last] == before[..last];
  }

  ghost function RepeatedWith(repeated: nat -> nat, kept: seq<Log>): nat -> nat {
    id => repeated(id) + if HasId(kept, id) then 1 else 0
  }

  ghost predicate Accounted(buffer: seq<Log>, remote: seq<Log>, nextId: nat, repeated: nat -> nat) {
    forall id: nat :: Copies(remote, id) == repeated(id) + if id < nextId && !HasId(buffer, id) then 1 else 0
  }

  /** DELETE FROM decode_log_buffer WHERE id IN (...) */
  function DeleteIds(buffer: seq<Log>, batch: seq<Log>): seq<Log> {
    if buffer == [] then []
    else (if HasId(batch, buffer[0].id) then [] else [buffer[0]]) + DeleteIds(buffer[1..], batch)
  }

  lemma {:induction false} DeleteNone(buffer: seq<Log>, batch: seq<Log>)
    requires forall i :: 0 <= i < |buffer| ==> !HasId(batch, buffer[i].id)
    ensures DeleteIds(buffer, batch) == buffer
  {
    if buffer != [] {
      DeleteNone(buffer[1..], batch);
    }
  }

  lemma {:induction false} DeletePrefix(buffer: seq<Log>, n: nat)
    requires IdsIncrease(buffer) && n <= |buffer|
    ensures DeleteIds(buffer, buffer[..n]) == buffer[n..]
  {
    DeletePrefixFrom(buffer, n, 0);
    assert buffer[0..] == buffer;
  }

  lemma {:induction false} DeletePrefixFrom(buffer: seq<Log>, n: nat, i: nat)
    requires IdsIncrease(buffer) && i <= n <= |buffer|
    ensures DeleteIds(buffer[i..], buffer[..n]) == buffer[n..]
    decreases n - i
  {
    if i < n {
      DeletePrefixFrom(buffer, n, i + 1);
      assert buffer[i..][1..] == buffer[i + 1..];
      assert buffer[..n][i].id == buffer[i..][0].id;
    } else {
      DeleteNone(buffer[n..], buffer[..n]);
    }
  }

  lemma LawAfterFlush(before: seq<Log>, copies: seq<Log>, removed: nat, landed: nat, nextId: nat, earlier: nat -> nat)
    requires IdsIncrease(before) && removed <= landed <= |before| && forall i :: 0 <= i < |before| ==> before[i].id < nextId
    requires Accounted(before, copies, nextId, earlier)
    ensures Accounted(before[removed..], copies + before[..landed], nextId, RepeatedWith(earlier, before[removed..landed]))
  {
    var after := RepeatedWith(earlier, before[removed..landed]);
    forall id: nat
      ensures Copies(copies + before[..landed], id) == after(id) + if id < nextId && !HasId(before[removed..], id) then 1 else 0
    {
      CopiesLaw(before, copies, removed, landed, id);
    }
  }

  lemma CopiesLaw(before: seq<Log>, copies: seq<Log>, removed: nat, landed: nat, id: nat)
    requires IdsIncrease(before) && removed <= landed <= |before|
    ensures Copies(copies + before[..landed], id) + (if HasId(before, id) then 0 else 1)
      == Copies(copies, id) + (if HasId(before[removed..landed], id) then 1 else 0) + (if HasId(before[removed..], id) then 0 else 1)
  {
    CopiesConcat(copies, before[..landed], id);
    CopiesOfIncreasing(before[..landed], id);
    SplitIds(before, removed, id);
    SplitIds(before, landed, id);
    SplitIds(before[..landed], removed, id);
    assert before[..landed][..removed] == before[..removed] && before[..landed][removed..] == before[removed..landed];
    LandedInBuffer(before, removed, landed, id);
  }

  lemma LandedInBuffer(before: seq<Log>, removed: nat, landed: nat, id: nat)
    requires removed <= landed <= |before|
    ensures HasId(before[removed..landed], id) ==> HasId(before[removed..], id)
  {
    assert before[removed..] == before[removed..landed] + before[landed..];
    HasIdConcat(before[removed..landed], before[landed..], id);
  }

  /** An id is before or after a position, not both. */
  lemma SplitIds(logs: seq<Log>, m: nat, id: nat)
    requires IdsIncrease(logs) && m <= |logs|
    ensures HasId(logs, id) <==> HasId(logs[..m], id) || HasId(logs[m..], id)
    ensures !(HasId(logs[..m], id) && HasId(logs[m..], id))
  {
    assert logs == logs[..m] + logs[m..];
    HasIdConcat(logs[..m], logs[m..], id);
  }
}
