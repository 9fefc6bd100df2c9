/** Pending uploads: rows go pending -> claimed -> done with one atomic commit, handlers may crash, and
    stale claims are reset. Several processes may claim, handle and reset. */
module UploadClaims {

  const CLAIM_TIMEOUT := 300

  datatype Stage = Pending | Claimed | Done

  /** Row of pending_uploads_local; its id is its position. complete: uploader, channel and message are all present. */
  datatype Row = Row(complete: bool, stage: Stage, claimedAt: int, deadCount: nat)

  /** A handler task: the row it works on and the time of the claim that started it. */
  datatype Handler = Handler(row: nat, since: int)

  /** One committed transaction: a file record and a code entry for a row under a fresh code, and
      which of the two change-log entries made it. */
  datatype Commit = Commit(row: nat, code: string, recordLogged: bool, codeLogged: bool)

  datatype State = State(rows: seq<Row>, handlers: multiset<Handler>, commits: seq<Commit>)

  /** How a handler ends. */
  datatype Outcome =
    | GivesUp(written: bool)        // code generation, record building or serialisation failed, or the transaction rolled back
    | Commits(code: string, recordLogged: bool, codeLogged: bool)
    | MarksIncomplete(written: bool) // incomplete row: only marked done

  datatype Event =
    | Insert(complete: bool)
    | Claim(now: int, limit: nat)
    | Finish(now: int, handler: Handler, outcome: Outcome)
    | Crash(handlers: multiset<Handler>)
    | ResetStale(now: int)

  // ---- store operations ----

  /** SELECT ... WHERE processed = 0 AND (claimed_at < cutoff OR claimed_at = 0) */
  predicate Claimable(r: Row, cutoff: int) {
    r.stage == Pending && (r.claimedAt < cutoff || r.claimedAt == 0)
  }

  function CountClaimable(rows: seq<Row>, cutoff: int): nat {
    if rows == [] then 0 else CountClaimable(rows[..|rows| - 1], cutoff) + if Claimable(rows[|rows| - 1], cutoff) then 1 else 0
  }

  /** The claim takes row i: it is claimable and fewer than limit claimable rows come before it. */
  predicate Takes(rows: seq<Row>, cutoff: int, limit: nat, i: nat)
    requires i < |rows|
  {
    Claimable(rows[i], cutoff) && CountClaimable(rows[..i], cutoff) < limit
  }

  function ClaimRows(rows: seq<Row>, now: int, limit: nat): (r: seq<Row>)
    ensures |r| == |rows|
  {
    seq(|rows|, i requires 0 <= i < |rows| =>
      if Takes(rows, now - CLAIM_TIMEOUT, limit, i) then rows[i].(stage := Claimed, claimedAt := now) else rows[i])
  }

  /** Claims up to limit rows in id order; the select and the update are one transaction. */
  method ClaimPending(rows: seq<Row>, now: int, limit: nat) returns (rows': seq<Row>, claimed: seq<nat>)
    ensures rows' == ClaimRows(rows, now, limit)
    ensures |claimed| <= limit && forall i: nat :: i in claimed <==> i < |rows| && Takes(rows, now - CLAIM_TIMEOUT, limit, i)
  {
    rows', claimed := rows, [];
    for i := 0 to |rows|
      invariant |rows'| == |rows| && forall k :: i <= k < |rows| ==> rows'[k] == rows[k]
      invariant forall k :: 0 <= k < i ==> rows'[k] == ClaimRows(rows, now, limit)[k]
      invariant forall k: nat :: k in claimed <==> k < i && Takes(rows, now - CLAIM_TIMEOUT, limit, k)
      invariant var claimable := CountClaimable(rows[..i], now - CLAIM_TIMEOUT);
        |claimed| == if claimable < limit then claimable else limit
    {
      assert rows[..i + 1][..i] == rows[..i];
      if Claimable(rows[i], now - CLAIM_TIMEOUT) && |claimed| < limit {
        rows' := rows'[i := rows[i].(stage := Claimed, claimedAt := now)];
        claimed := claimed + [i];
      }
    }
    assert rows[..|rows|] == rows;
  }

  /** UPDATE ... SET processed = 0, claimed_at = 0 WHERE processed = 2 AND claimed_at < cutoff AND claimed_at > 0 */
  predicate StaleAt(r: Row, now: int) {
    r.stage == Claimed && r.claimedAt < now - CLAIM_TIMEOUT && r.claimedAt > 0
  }

  function ResetRows(rows: seq<Row>, now: int): (r: seq<Row>)
    ensures |r| == |rows|
  {
    seq(|rows|, i requires 0 <= i < |rows| => if StaleAt(rows[i], now) then rows[i].(stage := Pending, claimedAt := 0) else rows[i])
  }

  // ---- what claims and resets do to the rows ----

  /** A row waiting for a handler: not processed, and never claimed or claimed more than 300 seconds ago. */
  ghost predicate Waits(r: Row, now: int) {
    r.stage == Pending && (r.claimedAt == 0 || r.claimedAt < now - 300)
  }

  lemma {:induction false} ClaimableCounted(rows: seq<Row>, now: int)
    ensures CountClaimable(rows, now - CLAIM_TIMEOUT) == |set j: nat | j < |rows| && Waits(rows[j], now)|
  {
    if rows != [] {
      var n := |rows| - 1;
      ClaimableCounted(rows[..n], now);
      var before := set j: nat | j < |rows[..n]| && Waits(rows[..n][j], now);
      assert (set j: nat | j < |rows| && Waits(rows[j], now)) == if Waits(rows[n], now) then before + {n} else before;
    }
  }

  /** A claim takes the waiting rows with fewer than limit waiting rows before them: these are claimed now. It changes nothing else. */
  lemma ClaimInFields(rows: seq<Row>, now: int, limit: nat, i: nat)
    requires i < |rows|
    ensures var taken := Waits(rows[i], now) && |set j: nat | j < i && Waits(rows[..i][j], now)| < limit;
      && (Takes(rows, now - CLAIM_TIMEOUT, limit, i) <==> taken)
      && var r := ClaimRows(rows, now, limit)[i];
      && r.complete == rows[i].complete && r.deadCount == rows[i].deadCount
      && (if taken then r.stage == Claimed && r.claimedAt == now else r == rows[i])
  {
    ClaimableCounted(rows[..i], now);
    assert (set j: nat | j < |rows[..i]| && Waits(rows[..i][j], now)) == set j: nat | j < i && Waits(rows[..i][j], now);
  }

  /** A reset returns exactly the rows claimed more than 300 seconds ago. */
  lemma ResetInFields(rows: seq<Row>, now: int, i: nat)
    requires i < |rows|
    ensures var r := ResetRows(rows, now)[i];
      && r.complete == rows[i].complete && r.deadCount == rows[i].deadCount
      && if rows[i].stage == Claimed && 0 < rows[i].claimedAt < now - 300 then r.stage == Pending && r.claimedAt == 0 else r == rows[i]
  {
  }

  // ---- one transaction ----

  datatype Tables = Tables(records: map<string, nat>, codes: map<string, nat>, recordLog: seq<string>, codeLog: seq<string>, rows: seq<Row>)

  /** Which store writes fail; a failing write raises. */
  datatype Faults = Faults(record: bool, recordLog: bool, code: bool, codeLog: bool, complete: bool, commit: bool)

  function Finalized(t: Tables, row: nat, code: string, recordLogged: bool, codeLogged: bool): Tables
    requires row < |t.rows|
  {
    t.(records := t.records[code := row], codes := t.codes[code := row],
       recordLog := if recordLogged then t.recordLog + [code] else t.recordLog,
       codeLog := if codeLogged then t.codeLog + [code] else t.codeLog,
       rows := t.rows[row := t.rows[row].(stage := Done, claimedAt := 0)])
  }

  /** The transaction: the record and the code name the row, each logged when its log entry was written, and the row is done and
      nobody's. No other record, code or row changes. */
  lemma FinalizedInFields(t: Tables, row: nat, code: string, recordLogged: bool, codeLogged: bool)
    requires row < |t.rows|
    ensures var after := Finalized(t, row, code, recordLogged, codeLogged);
      && code in after.records && after.records[code] == row && code in after.codes && after.codes[code] == row
      && (forall c :: c != code ==> (c in after.records <==> c in t.records) && (c in after.codes <==> c in t.codes))
      && (forall c :: c != code && c in t.records ==> after.records[c] == t.records[c])
      && (forall c :: c != code && c in t.codes ==> after.codes[c] == t.codes[c])
      && after.recordLog == t.recordLog + (if recordLogged then [code] else [])
      && after.codeLog == t.codeLog + (if codeLogged then [code] else [])
      && |after.rows| == |t.rows| && after.rows[row].stage == Done && after.rows[row].claimedAt == 0
      && after.rows[row].complete == t.rows[row].complete && after.rows[row].deadCount == t.rows[row].deadCount
      && forall i :: 0 <= i < |t.rows| && i != row ==> after.rows[i] == t.rows[i]
  {
  }

  class LocalStore {
    var tables: Tables

    constructor (t: Tables)
      ensures tables == t
    {
      tables := t;
    }

    /** The polling path: failures to log a change are swallowed, any other failure rolls everything back. */
    method CommitPolled(row: nat, code: string, f: Faults) returns (ok: bool)
      requires row < |tables.rows|
      modifies this
      ensures ok <==> !f.record && !f.code && !f.complete && !f.commit
      ensures tables == if ok then Finalized(old(tables), row, code, !f.recordLog, !f.codeLog) else old(tables)
    {
      var begin := tables;
      ok := WriteRecord(row, code, f.record);
      if ok {
        var _ := LogRecord(code, f.recordLog);
        ok := WriteCode(row, code, f.code);
      }
      if ok {
        var _ := LogCode(code, f.codeLog);
        ok := Complete(row, f.complete);
      }
      if !ok || f.commit {
        tables := begin;
        return false;
      }
    }

    /** finalize_upload: every failure rolls everything back. */
    method FinalizeUpload(row: nat, code: string, f: Faults) returns (ok: bool)
      requires row < |tables.rows|
      modifies this
      ensures ok <==> f == Faults(false, false, false, false, false, false)
      ensures tables == if ok then Finalized(old(tables), row, code, true, true) else old(tables)
    {
      var begin := tables;
      ok := WriteRecord(row, code, f.record);
      if ok { ok := LogRecord(code, f.recordLog); }
      if ok { ok := WriteCode(row, code, f.code); }
      if ok { ok := LogCode(code, f.codeLog); }
      if ok { ok := Complete(row, f.complete); }
      if !ok || f.commit {
        tables := begin;
        return false;
      }
    }

    method WriteRecord(row: nat, code: string, fails: bool) returns (ok: bool)
      modifies this
      ensures ok == !fails && tables == if ok then old(tables).(records := old(tables).records[code := row]) else old(tables)
    {
      if !fails { tables := tables.(records := tables.records[code := row]); }
      return !fails;
    }

    method WriteCode(row: nat, code: string, fails: bool) returns (ok: bool)
      modifies this
      ensures ok == !fails && tables == if ok then old(tables).(codes := old(tables).codes[code := row]) else old(tables)
    {
      if !fails { tables := tables.(codes := tables.codes[code := row]); }
      return !fails;
    }

    method LogRecord(code: string, fails: bool) returns (ok: bool)
      modifies this
      ensures ok == !fails && tables == if ok then old(tables).(recordLog := old(tables).recordLog + [code]) else old(tables)
    {
      if !fails { tables := tables.(recordLog := tables.recordLog + [code]); }
      return !fails;
    }

    method LogCode(code: string, fails: bool) returns (ok: bool)
      modifies this
      ensures ok == !fails && tables == if ok then old(tables).(codeLog := old(tables).codeLog + [code]) else old(tables)
    {
      if !fails { tables := tables.(codeLog := tables.codeLog + [code]); }
      return !fails;
    }

    method Complete(row: nat, fails: bool) returns (ok: bool)
      requires row < |tables.rows|
      modifies this
      ensures ok == !fails
      ensures tables == if !ok then old(tables) else
        old(tables).(rows := old(tables).rows[row := old(tables).rows[row].(stage := Done, claimedAt := 0)])
    {
      if !fails { tables := tables.(rows := tables.rows[row := tables.rows[row].(stage := Done, claimedAt := 0)]); }
      return !fails;
    }
  }

  // ---- the protocol ----

  predicate Fresh(s: State, code: string) {
    forall k :: 0 <= k < |s.commits| ==> s.commits[k].code != code
  }

  /** Events the system can perform: handlers finish what they started, codes are generated unique. */
  ghost predicate Enabled(s: State, e: Event) {
    match e
    case Insert(_) => true
    case Claim(now, _) => now > 0
    case Finish(_, h, outcome) =>
      && h in s.handlers && h.row < |s.rows|
      && (outcome.MarksIncomplete? <==> !s.rows[h.row].complete)
      && (outcome.Commits? ==> Fresh(s, outcome.code))
    case Crash(hs) => hs <= s.handlers
    case ResetStale(_) => true
  }

  /** No handler lives longer than d: none is still running more than d after its claim. */
  ghost predicate Within(s: State, e: Event, d: int) {
    (e.ResetStale? || e.Finish? || e.Claim?) ==> forall h :: h in s.handlers ==> e.now <= h.since + d
  }

  /** No handler outlives the claim timeout. */
  ghost predicate OnTime(s: State, e: Event) {
    Within(s, e, CLAIM_TIMEOUT)
  }

  /** The effect of an outcome on the handler's row: complete and fail update by id, whoever holds the claim. */
  function Settled(r: Row, outcome: Outcome): Row {
    match outcome
    case GivesUp(written) => if written then r.(stage := Pending, claimedAt := 0, deadCount := r.deadCount + 1) else r
    case Commits(_, _, _) => r.(stage := Done, claimedAt := 0)
    case MarksIncomplete(written) => if written then r.(stage := Done, claimedAt := 0) else r
  }

  /** A handler that gave up returns its row, one failure older; one that committed, or had nothing to commit, leaves it done; a
      status write that failed leaves it as it was. */
  lemma SettledInFields(r: Row, outcome: Outcome)
    ensures Settled(r, outcome).complete == r.complete
    ensures outcome.Commits? || (outcome.MarksIncomplete? && outcome.written) ==>
      Settled(r, outcome).stage == Done && Settled(r, outcome).claimedAt == 0 && Settled(r, outcome).deadCount == r.deadCount
    ensures outcome.GivesUp? && outcome.written ==>
      Settled(r, outcome).stage == Pending && Settled(r, outcome).claimedAt == 0 && Settled(r, outcome).deadCount == r.deadCount + 1
    ensures !outcome.Commits? && !outcome.written ==> Settled(r, outcome) == r
  {
  }

  /** Who is at work after a step: a claim starts one handler for each row it takes, a handler that finishes and those that crash
      are gone, and nothing else changes that. */
  lemma HandlersAfter(s: State, e: Event, h: Handler)
    requires Enabled(s, e)
    ensures Step(s, e).handlers[h] == match e
      case Insert(_) => s.handlers[h]
      case ResetStale(_) => s.handlers[h]
      case Claim(now, limit) =>
        s.handlers[h] + if h.since == now && h.row < |s.rows| && Takes(s.rows, now - 300, limit, h.row) then 1 else 0
      case Finish(_, done, _) => if h == done then s.handlers[h] - 1 else s.handlers[h]
      case Crash(hs) => s.handlers[h] - hs[h]
  {
    if e.Claim? {
      StartedOnce(s.rows, e.now, e.limit, |s.rows|);
    }
  }

  ghost function Step(s: State, e: Event): State
    requires Enabled(s, e)
  {
    match e
    case Insert(complete) => s.(rows := s.rows + [Row(complete, Pending, 0, 0)])
    case Claim(now, limit) =>
      s.(rows := ClaimRows(s.rows, now, limit), handlers := s.handlers + Started(s.rows, now, limit, |s.rows|))
    case Finish(_, h, outcome) =>
      State(s.rows[h.row := Settled(s.rows[h.row], outcome)], s.handlers - multiset{h},
            if outcome.Commits? then s.commits + [Commit(h.row, outcome.code, outcome.recordLogged, outcome.codeLogged)] else s.commits)
    case Crash(hs) => s.(handlers := s.handlers - hs)
    case ResetStale(now) => s.(rows := ResetRows(s.rows, now))
  }

  /** One handler for each row the claim takes, among the first n rows. */
  function Started(rows: seq<Row>, now: int, limit: nat, n: nat): multiset<Handler>
    requires n <= |rows|
  {
    if n == 0 then multiset{}
    else Started(rows, now, limit, n - 1) + if Takes(rows, now - CLAIM_TIMEOUT, limit, n - 1)
      then multiset{Handler(n - 1, now)} else multiset{}
  }

  predicate Begins(rows: seq<Row>, now: int, limit: nat, n: nat, h: Handler)
    requires n <= |rows|
  {
    h.row < n && h.since == now && Takes(rows, now - CLAIM_TIMEOUT, limit, h.row)
  }

  lemma {:induction false} StartedOnce(rows: seq<Row>, now: int, limit: nat, n: nat)
    requires n <= |rows|
    ensures forall h :: Started(rows, now, limit, n)[h] == (if Begins(rows, now, limit, n, h) then 1 else 0)
  {
    if n > 0 {
      StartedOnce(rows, now, limit, n - 1);
    }
  }

  /** How many transactions were committed for a row. */
  function CommitsOf(commits: seq<Commit>, row: nat): nat {
    if commits == [] then 0 else CommitsOf(commits[..|commits| - 1], row) + if commits[|commits| - 1].row == row then 1 else 0
  }

  ghost predicate HandlersInv(s: State) {
    && (forall h :: h in s.handlers ==>
      && s.handlers[h] == 1 && h.row < |s.rows| && s.rows[h.row].stage == Claimed && s.rows[h.row].claimedAt == h.since)
    && (forall i :: 0 <= i < |s.rows| && s.rows[i].stage == Claimed ==> s.rows[i].claimedAt > 0)
    && (forall i :: 0 <= i < |s.rows| && s.rows[i].stage == Pending ==> s.rows[i].claimedAt == 0)
  }

  /** A complete row is done exactly when one transaction was committed for it; nothing else was committed. */
  ghost predicate CommitsInv(s: State) {
    && (forall i :: 0 <= i < |s.rows| ==>
      CommitsOf(s.commits, i) == if s.rows[i].stage == Done && s.rows[i].complete then 1 else 0)
    && DistinctCodes(s.commits)
    && (forall k :: 0 <= k < |s.commits| ==> s.commits[k].row < |s.rows|)
  }

  ghost predicate Inv(s: State) {
    HandlersInv(s) && CommitsInv(s)
  }

  lemma ClaimKeepsHandlers(s: State, now: int, limit: nat)
    requires HandlersInv(s) && now > 0
    ensures HandlersInv(Step(s, Claim(now, limit)))
  {
    StartedOnce(s.rows, now, limit, |s.rows|);
  }

  lemma FinishKeepsHandlers(s: State, now: int, h: Handler, outcome: Outcome)
    requires HandlersInv(s) && Enabled(s, Finish(now, h, outcome))
    ensures HandlersInv(Step(s, Finish(now, h, outcome)))
  {
    assert forall other :: other in s.handlers && other.row == h.row ==> other == h;
  }

  lemma {:induction false} StepKeepsHandlers(s: State, e: Event)
    requires Inv(s) && Enabled(s, e) && OnTime(s, e)
    ensures HandlersInv(Step(s, e))
  {
    match e
    case Claim(now, limit) => ClaimKeepsHandlers(s, now, limit);
    case Finish(now, h, outcome) => FinishKeepsHandlers(s, now, h, outcome);
    case _ =>
  }

  lemma CommitKeepsCommits(s: State, now: int, h: Handler, outcome: Outcome)
    requires Inv(s) && Enabled(s, Finish(now, h, outcome)) && outcome.Commits?
    ensures CommitsInv(Step(s, Finish(now, h, outcome)))
  {
    CommitsSnoc(s.commits, Commit(h.row, outcome.code, outcome.recordLogged, outcome.codeLogged));
  }

  lemma CommitsSnoc(commits: seq<Commit>, c: Commit)
    ensures forall row: nat :: CommitsOf(commits + [c], row) == CommitsOf(commits, row) + if c.row == row then 1 else 0
  {
    assert (commits + [c])[..|commits|] == commits;
  }

  lemma StepKeepsCommits(s: State, e: Event)
    requires Inv(s) && Enabled(s, e)
    ensures CommitsInv(Step(s, e))
  {
    match e
    case Insert(_) => NoCommits(s.commits, |s.rows|);
    case Finish(now, h, outcome) =>
      if outcome.Commits? {
        CommitKeepsCommits(s, now, h, outcome);
      }
    case _ =>
  }

  lemma StepKeepsInv(s: State, e: Event)
    requires Inv(s) && Enabled(s, e) && OnTime(s, e)
    ensures Inv(Step(s, e))
  {
    StepKeepsHandlers(s, e);
    StepKeepsCommits(s, e);
  }

  lemma StepKeepsRows(s: State, e: Event)
    requires Enabled(s, e)
    ensures |Step(s, e).rows| == |s.rows| + if e.Insert? then 1 else 0
  {
  }

  lemma {:induction false} NoCommits(commits: seq<Commit>, row: nat)
    requires forall k :: 0 <= k < |commits| ==> commits[k].row < row
    ensures CommitsOf(commits, row) == 0
  {
    if commits != [] {
      NoCommits(commits[..|commits| - 1], row);
    }
  }

  /** The states of a run, each event enabled where it happens. */
  ghost predicate IsRun(states: seq<State>, events: seq<Event>) {
    && |states| == |events| + 1
    && states[0] == State([], multiset{}, [])
    && forall k :: 0 <= k < |events| ==> Enabled(states[k], events[k]) && states[k + 1] == Step(states[k], events[k])
  }

  ghost predicate RunWithin(states: seq<State>, events: seq<Event>, d: int) {
    forall k :: 0 <= k < |events| && k < |states| ==> Within(states[k], events[k], d)
  }

  ghost predicate RunOnTime(states: seq<State>, events: seq<Event>) {
    RunWithin(states, events, CLAIM_TIMEOUT)
  }

  /** A complete row is done exactly when one transaction was committed for it, and no other row has one. */
  ghost predicate OneCommitEach(s: State) {
    forall i :: 0 <= i < |s.rows| ==> CommitsOf(s.commits, i) == if s.rows[i].stage == Done && s.rows[i].complete then 1 else 0
  }

  /** In every state reached without a handler outliving the claim timeout: a complete row is done
      exactly when one record and one code were committed for it, and every inserted row is still there. */
  lemma {:induction false} DoneIffCommittedOnce(states: seq<State>, events: seq<Event>, k: nat)
    requires IsRun(states, events) && RunOnTime(states, events) && k < |states|
    ensures Inv(states[k]) && OneCommitEach(states[k])
    ensures |states[k].rows| == Inserted(events[..k])
  {
    if k > 0 {
      DoneIffCommittedOnce(states, events, k - 1);
      StepKeepsInv(states[k - 1], events[k - 1]);
      StepKeepsRows(states[k - 1], events[k - 1]);
      assert events[..k][..k - 1] == events[..k - 1];
    }
  }

  function Inserted(events: seq<Event>): nat {
    if events == [] then 0 else Inserted(events[..|events| - 1]) + if events[|events| - 1].Insert? then 1 else 0
  }

  /** Without any assumption on time, a complete done row was committed at least once and every row is kept. */
  lemma {:induction false} DoneWasCommitted(states: seq<State>, events: seq<Event>, k: nat)
    requires IsRun(states, events) && k < |states|
    ensures |states[k].rows| == Inserted(events[..k])
    ensures DoneCommitted(states[k])
  {
    if k > 0 {
      DoneWasCommitted(states, events, k - 1);
      StepKeepsRows(states[k - 1], events[k - 1]);
      assert events[..k][..k - 1] == events[..k - 1];
      StepKeepsDone(states[k - 1], events[k - 1]);
    }
  }

  ghost predicate DoneCommitted(s: State) {
    forall i :: 0 <= i < |s.rows| && s.rows[i].stage == Done && s.rows[i].complete ==> CommitsOf(s.commits, i) >= 1
  }

  lemma StepKeepsDone(s: State, e: Event)
    requires DoneCommitted(s) && Enabled(s, e)
    ensures DoneCommitted(Step(s, e))
  {
    if e.Finish? && e.outcome.Commits? {
      CommitsSnoc(s.commits, Commit(e.handler.row, e.outcome.code, e.outcome.recordLogged, e.outcome.codeLogged));
    }
  }

  /** The run of the late-handler example: one row, claimed at time 1, reset and claimed again at 302, when both handlers end. */
  function LateEvent(k: nat): Event {
    match k
    case 0 => Insert(true)
    case 1 => Claim(1, 10)
    case 2 => ResetStale(302)
    case 3 => Claim(302, 10)
    case 4 => Finish(302, Handler(0, 1), Commits("a", true, true))
    case _ => Finish(302, Handler(0, 302), Commits("b", true, true))
  }

  function LateState(k: nat): State {
    match k
    case 0 => State([], multiset{}, [])
    case 1 => State([Row(true, Pending, 0, 0)], multiset{}, [])
    case 2 => State([Row(true, Claimed, 1, 0)], multiset{Handler(0, 1)}, [])
    case 3 => State([Row(true, Pending, 0, 0)], multiset{Handler(0, 1)}, [])
    case 4 => State([Row(true, Claimed, 302, 0)], multiset{Handler(0, 1), Handler(0, 302)}, [])
    case 5 => State([Row(true, Done, 0, 0)], multiset{Handler(0, 302)}, [Commit(0, "a", true, true)])
    case _ => State([Row(true, Done, 0, 0)], multiset{}, [Commit(0, "a", true, true), Commit(0, "b", true, true)])
  }

  lemma ClaimTheOnlyRow(s: State, now: int)
    requires s.rows == [Row(true, Pending, 0, 0)] && now > 0
    ensures Step(s, Claim(now, 10)) == State([Row(true, Claimed, now, 0)], s.handlers + multiset{Handler(0, now)}, s.commits)
  {
    var rows := s.rows;
    assert rows[..0] == [];
    assert Takes(rows, now - CLAIM_TIMEOUT, 10, 0);
    assert ClaimRows(rows, now, 10) == [Row(true, Claimed, now, 0)];
    assert Started(rows, now, 10, 1) == multiset{Handler(0, now)};
  }

  ghost predicate Links(s: State, e: Event, s': State) {
    Enabled(s, e) && s' == Step(s, e)
  }

  ghost predicate Follows(k: nat) {
    Links(LateState(k), LateEvent(k), LateState(k + 1))
  }

  lemma LateClaims()
    ensures Follows(0) && Follows(1) && Follows(3)
  {
    ClaimTheOnlyRow(LateState(1), 1);
    assert multiset{} + multiset{Handler(0, 1)} == multiset{Handler(0, 1)};
    ClaimTheOnlyRow(LateState(3), 302);
    assert multiset{Handler(0, 1)} + multiset{Handler(0, 302)} == multiset{Handler(0, 1), Handler(0, 302)};
  }

  lemma LateReset()
    ensures Follows(2)
  {
    assert ResetRows(LateState(2).rows, 302) == LateState(3).rows;
  }

  lemma FirstLateCommit()
    ensures Follows(4)
  {
    assert multiset{Handler(0, 1), Handler(0, 302)} - multiset{Handler(0, 1)} == multiset{Handler(0, 302)};
  }

  lemma SecondLateCommit()
    ensures Follows(5)
  {
    assert multiset{Handler(0, 302)} - multiset{Handler(0, 302)} == multiset{};
  }

  lemma RunSnoc(states: seq<State>, events: seq<Event>, e: Event, s: State) returns (states': seq<State>, events': seq<Event>)
    requires IsRun(states, events) && Links(states[|events|], e, s)
    ensures IsRun(states', events') && events' == events + [e] && states' == states + [s]
  {
    states', events' := states + [s], events + [e];
  }

  ghost predicate LateSoFar(states: seq<State>, events: seq<Event>, k: nat) {
    && IsRun(states, events) && |events| == k
    && forall j :: 0 <= j <= k ==> states[j] == LateState(j) && (j < k ==> events[j] == LateEvent(j))
  }

  lemma LateFurther(states: seq<State>, events: seq<Event>, k: nat) returns (states': seq<State>, events': seq<Event>)
    requires LateSoFar(states, events, k) && Follows(k)
    ensures LateSoFar(states', events', k + 1)
  {
    states', events' := RunSnoc(states, events, LateEvent(k), LateState(k + 1));
  }

  lemma {:induction false} LateRun(k: nat) returns (states: seq<State>, events: seq<Event>)
    requires k <= 6
    ensures LateSoFar(states, events, k)
  {
    if k == 0 {
      states, events := [LateState(0)], [];
    } else {
      states, events := LateRun(k - 1);
      LateStep(k - 1);
      states, events := LateFurther(states, events, k - 1);
    }
  }

  lemma LateStep(k: nat)
    requires k < 6
    ensures Follows(k)
  {
    if k == 0 || k == 1 || k == 3 {
      LateClaims();
    } else if k == 2 {
      LateReset();
    } else if k == 4 {
      FirstLateCommit();
    } else {
      SecondLateCommit();
    }
  }

  /** No handler of the late run lives longer than 301. */
  lemma LateWithin(k: nat, d: int)
    requires k < 6 && d > CLAIM_TIMEOUT
    ensures Within(LateState(k), LateEvent(k), d)
  {
    forall h | h in LateState(k).handlers ensures h.since >= 1 {
    }
  }

  /** Handlers that may outlive the timeout, by however little, break it: there is a run within any longer lifetime whose only
      row is reset, claimed again and committed under two codes. */
  lemma LateHandlerCommitsTwice(d: int) returns (states: seq<State>, events: seq<Event>)
    requires d > CLAIM_TIMEOUT
    ensures IsRun(states, events) && RunWithin(states, events, d) && !RunOnTime(states, events)
    ensures |states[|events|].rows| == 1 && CommitsOf(states[|events|].commits, 0) == 2
  {
    states, events := LateRun(6);
    forall k | 0 <= k < |events| ensures Within(states[k], events[k], d) {
      LateWithin(k, d);
    }
    assert Handler(0, 1) in LateState(2).handlers && !OnTime(states[2], events[2]);
    TwoCommits();
  }

  /** Every run whose handlers live at most d leaves one commit for each done row. */
  ghost predicate SafeWithin(d: int) {
    forall states: seq<State>, events: seq<Event>, k: nat ::
      IsRun(states, events) && RunWithin(states, events, d) && k < |states| ==> OneCommitEach(states[k])
  }

  /** The exact condition on the lifetime of handlers: they must end within the claim timeout. */
  lemma SafeIffWithinTimeout(d: int)
    ensures SafeWithin(d) <==> d <= CLAIM_TIMEOUT
  {
    if d <= CLAIM_TIMEOUT {
      forall states: seq<State>, events: seq<Event>, k: nat | IsRun(states, events) && RunWithin(states, events, d) && k < |states|
        ensures OneCommitEach(states[k])
      {
        WithinIsOnTime(states, events, d);
        DoneIffCommittedOnce(states, events, k);
      }
    } else {
      var states, events := LateHandlerCommitsTwice(d);
      assert !OneCommitEach(states[|events|]);
    }
  }

  lemma WithinIsOnTime(states: seq<State>, events: seq<Event>, d: int)
    requires RunWithin(states, events, d) && d <= CLAIM_TIMEOUT
    ensures RunOnTime(states, events)
  {
    forall k | 0 <= k < |events| && k < |states| ensures OnTime(states[k], events[k]) {
      assert Within(states[k], events[k], d);
    }
  }

  lemma TwoCommits()
    ensures CommitsOf(LateState(6).commits, 0) == 2
  {
    var commits := LateState(6).commits;
    assert commits[..1] == [Commit(0, "a", true, true)] && commits[..1][..0] == [];
  }

  function EarlierPending(rows: seq<Row>, i: nat): nat
    requires i <= |rows|
  {
    CountClaimable(rows[..i], 0)
  }

  /** No row gets stuck: a row not done is taken by a claim whose limit exceeds the pending rows before it,
      or is claimed, and once the timeout has passed a reset makes it pending again. */
  lemma NoRowStuck(s: State, i: nat, now: int, limit: nat)
    requires HandlersInv(s) && i < |s.rows| && s.rows[i].stage != Done
    requires now > CLAIM_TIMEOUT
    ensures s.rows[i].stage == Pending && EarlierPending(s.rows, i) < limit ==> ClaimRows(s.rows, now, limit)[i].stage == Claimed
    ensures s.rows[i].stage == Claimed && now > s.rows[i].claimedAt + CLAIM_TIMEOUT ==> ResetRows(s.rows, now)[i].stage == Pending
  {
    ClaimableIsPending(s.rows[..i], now - CLAIM_TIMEOUT);
  }

  lemma {:induction false} ClaimableIsPending(rows: seq<Row>, cutoff: int)
    requires forall i :: 0 <= i < |rows| && rows[i].stage == Pending ==> rows[i].claimedAt == 0
    ensures CountClaimable(rows, cutoff) == CountClaimable(rows, 0)
  {
    if rows != [] {
      ClaimableIsPending(rows[..|rows| - 1], cutoff);
    }
  }

  // ---- the tables behind the commits ----

  /** The tables hold exactly the committed records and codes, each under its row. */
  ghost predicate TablesMatch(s: State, t: Tables) {
    && t.rows == s.rows && t.records == t.codes
    && (forall k :: 0 <= k < |s.commits| ==> s.commits[k].code in t.records && t.records[s.commits[k].code] == s.commits[k].row)
    && (forall code :: code in t.records ==> exists k :: 0 <= k < |s.commits| && s.commits[k].code == code)
  }

  /** The codes whose record, or whose code entry, was logged with the commit, in the order of the commits. */
  function LoggedRecords(commits: seq<Commit>): seq<string> {
    if commits == [] then []
    else
      var c := commits[|commits| - 1];
      LoggedRecords(commits[..|commits| - 1]) + if c.recordLogged then [c.code] else []
  }

  function LoggedCodes(commits: seq<Commit>): seq<string> {
    if commits == [] then []
    else
      var c := commits[|commits| - 1];
      LoggedCodes(commits[..|commits| - 1]) + if c.codeLogged then [c.code] else []
  }

  /** The change logs hold what the commits logged. */
  ghost predicate LogsMatch(s: State, t: Tables) {
    t.recordLog == LoggedRecords(s.commits) && t.codeLog == LoggedCodes(s.commits)
  }

  lemma LogsFollow(s: State, t: Tables, e: Event)
    requires TablesMatch(s, t) && LogsMatch(s, t) && Enabled(s, e)
    ensures LogsMatch(Step(s, e), NextTables(t, e))
  {
    if e.Finish? && e.outcome.Commits? {
      LoggedSnoc(s.commits, Commit(e.handler.row, e.outcome.code, e.outcome.recordLogged, e.outcome.codeLogged));
    }
  }

  lemma LoggedSnoc(commits: seq<Commit>, c: Commit)
    ensures LoggedRecords(commits + [c]) == LoggedRecords(commits) + if c.recordLogged then [c.code] else []
    ensures LoggedCodes(commits + [c]) == LoggedCodes(commits) + if c.codeLogged then [c.code] else []
  {
    assert (commits + [c])[..|commits|] == commits;
  }

  /** What an event does to the tables: a commit is the transaction of LocalStore. */
  function NextTables(t: Tables, e: Event): Tables
    requires e.Finish? ==> e.handler.row < |t.rows|
  {
    match e
    case Insert(complete) => t.(rows := t.rows + [Row(complete, Pending, 0, 0)])
    case Claim(now, limit) => t.(rows := ClaimRows(t.rows, now, limit))
    case Finish(_, h, outcome) =>
      if outcome.Commits? then Finalized(t, h.row, outcome.code, outcome.recordLogged, outcome.codeLogged)
      else t.(rows := t.rows[h.row := Settled(t.rows[h.row], outcome)])
    case Crash(_) => t
    case ResetStale(now) => t.(rows := ResetRows(t.rows, now))
  }

  const EMPTY_TABLES := Tables(map[], map[], [], [], [])

  /** The tables after the first k events of a run. */
  ghost function TablesAt(states: seq<State>, events: seq<Event>, k: nat): (t: Tables)
    requires IsRun(states, events) && k < |states|
    ensures TablesMatch(states[k], t) && LogsMatch(states[k], t)
  {
    if k == 0 then EMPTY_TABLES
    else
      LogsFollow(states[k - 1], TablesAt(states, events, k - 1), events[k - 1]);
      TablesFollow(states[k - 1], TablesAt(states, events, k - 1), events[k - 1]);
      NextTables(TablesAt(states, events, k - 1), events[k - 1])
  }

  /** The protocol and the tables stay in step. */
  lemma TablesFollow(s: State, t: Tables, e: Event)
    requires TablesMatch(s, t) && Enabled(s, e)
    ensures TablesMatch(Step(s, e), NextTables(t, e))
  {
    if e.Finish? && e.outcome.Commits? {
      CommitMatchesTables(s, t, e.now, e.handler, e.outcome.code, e.outcome.recordLogged, e.outcome.codeLogged);
    }
  }

  /** A commit of the polling path is the protocol's step on the tables. */
  lemma CommitMatchesTables(s: State, t: Tables, now: int, h: Handler, code: string, recordLogged: bool, codeLogged: bool)
    requires TablesMatch(s, t) && Enabled(s, Finish(now, h, Commits(code, recordLogged, codeLogged)))
    ensures TablesMatch(Step(s, Finish(now, h, Commits(code, recordLogged, codeLogged))),
      Finalized(t, h.row, code, recordLogged, codeLogged))
  {
    var s' := Step(s, Finish(now, h, Commits(code, recordLogged, codeLogged)));
    assert s'.commits[|s.commits|].code == code;
    forall c | c in t.records ensures exists k :: 0 <= k < |s'.commits| && s'.commits[k].code == c {
      var k :| 0 <= k < |s.commits| && s.commits[k].code == c;
      assert s'.commits[k].code == c;
    }
  }

  function CodesOf(t: Tables, row: nat): set<string> {
    set code | code in t.records && t.records[code] == row
  }

  /** The codes of the first n commits that belong to a row. */
  function CommittedCodes(commits: seq<Commit>, row: nat, n: nat): set<string>
    requires n <= |commits|
  {
    if n == 0 then {} else CommittedCodes(commits, row, n - 1) + if commits[n - 1].row == row then {commits[n - 1].code} else {}
  }

  lemma {:induction false} CommittedCodesMembers(commits: seq<Commit>, row: nat, n: nat)
    requires n <= |commits|
    ensures forall code :: code in CommittedCodes(commits, row, n) <==>
      exists k :: 0 <= k < n && commits[k].code == code && commits[k].row == row
  {
    if n > 0 {
      CommittedCodesMembers(commits, row, n - 1);
    }
  }

  ghost predicate DistinctCodes(commits: seq<Commit>) {
    forall j, k :: 0 <= j < k < |commits| ==> commits[j].code != commits[k].code
  }

  lemma NextCodeIsNew(commits: seq<Commit>, row: nat, n: nat)
    requires n < |commits| && DistinctCodes(commits)
    ensures commits[n].code !in CommittedCodes(commits, row, n)
  {
    CommittedCodesMembers(commits, row, n);
  }

  lemma OneMoreCommit(commits: seq<Commit>, row: nat, n: nat)
    requires n < |commits| && commits[n].code !in CommittedCodes(commits, row, n)
    requires |CommittedCodes(commits, row, n)| == CommitsOf(commits[..n], row)
    ensures |CommittedCodes(commits, row, n + 1)| == CommitsOf(commits[..n + 1], row)
  {
    assert commits[..n + 1] == commits[..n] + [commits[n]];
    CommitsSnoc(commits[..n], commits[n]);
    AddOne(CommittedCodes(commits, row, n), commits[n].code);
  }

  lemma {:induction false} CommittedCodesCount(commits: seq<Commit>, row: nat, n: nat)
    requires n <= |commits| && DistinctCodes(commits)
    ensures |CommittedCodes(commits, row, n)| == CommitsOf(commits[..n], row)
  {
    if n == 0 {
      assert commits[..0] == [];
    } else {
      var m := n - 1;
      CommittedCodesCount(commits, row, m);
      NextCodeIsNew(commits, row, m);
      OneMoreCommit(commits, row, m);
      assert m + 1 == n;
    }
  }

  lemma AddOne(codes: set<string>, code: string)
    requires code !in codes
    ensures |codes + {code}| == |codes| + 1 && codes + {} == codes
  {
  }

  /** In terms of the tables, in every state reached without a handler outliving the claim timeout: a complete row is done
      exactly when there is one record, and one code entry, for it, and it has none otherwise. */
  lemma DoneIffOneRecord(states: seq<State>, events: seq<Event>, k: nat, i: nat)
    requires IsRun(states, events) && RunOnTime(states, events) && k < |states| && i < |states[k].rows|
    ensures var t := TablesAt(states, events, k);
      && t.rows == states[k].rows && t.records == t.codes
      && |CodesOf(t, i)| == if t.rows[i].stage == Done && t.rows[i].complete then 1 else 0
  {
    DoneIffCommittedOnce(states, events, k);
    RecordsOfRow(states[k], TablesAt(states, events, k), i);
  }

  lemma RecordsOfRow(s: State, t: Tables, i: nat)
    requires CommitsInv(s) && TablesMatch(s, t) && i < |s.rows|
    ensures |CodesOf(t, i)| == if s.rows[i].stage == Done && s.rows[i].complete then 1 else 0
  {
    CommittedCodesCount(s.commits, i, |s.commits|);
    assert s.commits[..|s.commits|] == s.commits;
    CodesAreCommitted(s, t, i);
  }

  lemma CodesAreCommitted(s: State, t: Tables, i: nat)
    requires CommitsInv(s) && TablesMatch(s, t)
    ensures CodesOf(t, i) == CommittedCodes(s.commits, i, |s.commits|)
  {
    CommittedCodesMembers(s.commits, i, |s.commits|);
    forall code | code in CodesOf(t, i) ensures code in CommittedCodes(s.commits, i, |s.commits|) {
      var k :| 0 <= k < |s.commits| && s.commits[k].code == code;
    }
    forall code | code in CommittedCodes(s.commits, i, |s.commits|) ensures code in CodesOf(t, i) {
      var k :| 0 <= k < |s.commits| && s.commits[k].code == code && s.commits[k].row == i;
    }
  }
}
