/** Delivery of a single-file job: claim, write-ahead receipt, effect receipt, send, confirm, retry or
    dead-letter, with crashes and reclaims between attempts. Attempts of the job do not overlap. */
module Delivery {
  datatype Option<+T> = None | Some(value: T)

  datatype JobStatus = Pending | Dispatched | Done | Dead | WaitingStart | ReceiptPending
  datatype ReceiptStatus = PENDING | SENT | CONFIRMED | FAILED

  /** Row of delivery_receipts for the job's one source message. */
  datatype Receipt = NoRow | Row(status: ReceiptStatus, sentId: Option<int>)

  /** Row of effect_receipts for the send. */
  datatype Effect = NoEffect | Running | Broken | Completed(externalId: int)

  /** A store read: what is there, an exception, or an error the store swallows and answers with no rows. */
  datatype Read = ReadOk | ReadRaises | ReadSilent
  /** A store write: done, an exception, or an error the store swallows. */
  datatype Write = Written | WriteRaises | WriteSilent

  datatype Delivery = Delivered(sentId: int) | Refused | Unavailable | Breaks

  datatype CrashPoint = NoCrash | BeforeReceipt | AfterReceipt | AfterSend | AfterConfirm | BeforeStatus

  /** Everything outside the bot's control during one attempt. */
  datatype Env = Env(userStarted: bool, sentIdsRead: Read, semaphore: bool, receiptRead: Read, pendingWrite: Write,
                     pauseWrite: bool, effectEnters: bool, verifyRead: Read, delivery: Delivery, confirmWrite: Write,
                     failWrite: Write, epilogueRaises: bool, effectExits: bool, doneWrite: bool, permanentError: bool,
                     statusWrite: bool, crash: CrashPoint)

  datatype Outcome = Returned(ok: bool) | Raised(delivery: bool) | Crashed

  predicate WasDelivered(r: Receipt) {
    r.Row? && (r.status == SENT || r.status == CONFIRMED)
  }

  /** What the sent-id query answers from the row: ids of delivered copies. */
  function SentIds(r: Receipt): set<int> {
    if WasDelivered(r) && r.sentId.Some? then {r.sentId.value} else {}
  }

  /** A receipt after a failed delivery was written to it. */
  function Failed(r: Receipt, w: Write): Receipt {
    if w.Written? && r.Row? then Row(FAILED, r.sentId) else r
  }

  function Credit(r: Receipt): nat {
    if WasDelivered(r) then 1 else 0
  }

  /** When exactly one pass through the single-file path sends: the receipt read does not raise and shows no delivered
      receipt, the PENDING write does not raise, the effect is entered and not completed yet, and nothing crashes before. */
  predicate Sends(msg: int, receipt: Receipt, effect: Effect, env: Env) {
    && msg != 0 && !env.receiptRead.ReadRaises? && !(env.receiptRead.ReadOk? && WasDelivered(receipt))
    && !env.crash.BeforeReceipt? && !env.pendingWrite.WriteRaises? && !env.crash.AfterReceipt?
    && env.effectEnters && !effect.Completed? && env.delivery.Delivered?
  }

  /** When exactly an attempt gets as far as the single-file path. */
  predicate Proceeds(msg: int, retry: nat, tracker: set<int>, receipt: Receipt, env: Env) {
    retry < 3 && env.userStarted && env.semaphore && !(msg != 0 && msg in TrackerAfter(tracker, receipt, env))
  }

  function TrackerAfter(tracker: set<int>, receipt: Receipt, env: Env): set<int> {
    if env.sentIdsRead.ReadOk? then tracker + SentIds(receipt) else tracker
  }

  // ---- the protocol as a function of state and environment ----

  /** The job, its receipts and the tracker entry, and the history of the run: successful sends; sends not confirmed, because
      of a crash before the confirmation or because it reached no row; attempts in which a swallowed read error hid a delivered
      receipt; sends made while no PENDING receipt was persisted; PENDING writes whose error the store swallowed. */
  datatype State = State(status: JobStatus, retry: nat, receipt: Receipt, effect: Effect, tracker: set<int>,
                         sends: nat, unconfirmed: nat, unseen: nat, bareSends: nat, silentWrites: nat)

  const INITIAL := State(JobStatus.Pending, 0, NoRow, NoEffect, {}, 0, 0, 0, 0, 0)

  /** INSERT OR REPLACE of a PENDING row, unless it raises. */
  function Recorded(s: State, w: Write): State {
    match w
    case Written => s.(receipt := Row(PENDING, None))
    case WriteSilent => s.(silentWrites := s.silentWrites + 1)
    case WriteRaises => s
  }

  /** The message goes out. */
  function Sent(s: State): State {
    s.(effect := Running, sends := s.sends + 1, bareSends := s.bareSends + if s.receipt != Row(PENDING, None) then 1 else 0)
  }

  /** UPDATE to CONFIRMED; without a row nothing is updated. */
  function Confirmed(s: State, sentId: int, w: Write): State {
    if w.Written? && s.receipt.Row? then s.(receipt := Row(CONFIRMED, Some(sentId))) else s.(unconfirmed := s.unconfirmed + 1)
  }

  /** From a message that went out to the end of the effect. */
  function AfterSending(msg: int, s: State, env: Env, sentId: int): (State, Outcome) {
    if env.crash.AfterSend? then (s.(unconfirmed := s.unconfirmed + 1, tracker := {}), Crashed)
    else
      var c := Confirmed(s.(tracker := s.tracker + {msg}), sentId, env.confirmWrite);
      if env.crash.AfterConfirm? then (c.(tracker := {}), Crashed)
      else if env.epilogueRaises || !env.effectExits then (c.(effect := if env.effectExits then Broken else c.effect), Raised(false))
      else (c.(effect := Completed(sentId)), Returned(true))
  }

  function InsideEffect(msg: int, s: State, env: Env): (State, Outcome) {
    if !env.effectEnters then (s, Raised(false))
    else if s.effect.Completed? then
      if env.verifyRead.ReadOk? && s.receipt.Row? && s.receipt.sentId == Some(s.effect.externalId)
      then (s.(tracker := s.tracker + {msg}), Returned(true)) else (s, Returned(false))
    else match env.delivery
      case Breaks => (s.(effect := if env.effectExits then Broken else Running), Raised(false))
      case Refused => (s.(effect := Running, receipt := Failed(s.receipt, env.failWrite)), Returned(false))
      case Unavailable => (s.(effect := Running, receipt := Failed(s.receipt, env.failWrite)), Returned(false))
      case Delivered(sentId) => AfterSending(msg, Sent(s), env, sentId)
  }

  /** The PENDING receipt and what follows it. */
  function WriteAhead(msg: int, s: State, env: Env): (State, Outcome) {
    if env.crash.BeforeReceipt? then (s.(tracker := {}), Crashed)
    else if env.pendingWrite.WriteRaises? then (s.(status := if env.pauseWrite then ReceiptPending else s.status), Returned(false))
    else
      var written := Recorded(s, env.pendingWrite);
      if env.crash.AfterReceipt? then (written.(tracker := {}), Crashed) else InsideEffect(msg, written, env)
  }

  /** The read of a delivered receipt did not show it. */
  function Unseen(s: State): State {
    if WasDelivered(s.receipt) then s.(unseen := s.unseen + 1) else s
  }

  /** The single-file path. */
  function Processed(msg: int, s: State, env: Env): (State, Outcome) {
    if msg == 0 then (s, Returned(false))
    else if env.receiptRead.ReadRaises? then (s, Raised(true))
    else if WasDelivered(s.receipt) && env.receiptRead.ReadOk? then (s.(tracker := s.tracker + {msg}), Returned(true))
    else WriteAhead(msg, Unseen(s), env)
  }

  /** Back to pending with a higher retry count, or dead at three. */
  function RetriedOrBuried(s: State, statusWrite: bool): (State, Outcome) {
    var cleared := if s.retry + 1 >= 3 then s.(tracker := {}) else s;
    if !statusWrite then (cleared, Raised(false))
    else if s.retry + 1 >= 3 then (cleared.(status := Dead), Returned(false))
    else (s.(status := Pending, retry := s.retry + 1), Returned(false))
  }

  /** The status write after the single-file path. */
  function Settled(s: State, r: Outcome, env: Env): (State, Outcome) {
    if r.Crashed? then (s, Crashed)
    else if r == Returned(true) && env.doneWrite then (s.(status := Done, tracker := {}), Returned(true))
    else if (r == Returned(true) || r == Raised(false)) && env.permanentError then
      (s.(tracker := {}, status := if env.statusWrite then Dead else s.status), Returned(false))
    else if env.crash.BeforeStatus? then (s.(tracker := {}), Crashed)
    else RetriedOrBuried(s, env.statusWrite)
  }

  /** One attempt of a claimed job. */
  function Attempted(msg: int, s: State, env: Env): (State, Outcome) {
    if s.retry >= 3 then
      if env.statusWrite then (s.(tracker := {}, status := Dead), Returned(false)) else (s.(tracker := {}), Raised(false))
    else if !env.userStarted then
      if env.statusWrite then (s.(status := WaitingStart), Returned(false)) else (s, Raised(false))
    else
      var merged := s.(tracker := TrackerAfter(s.tracker, s.receipt, env));
      if msg != 0 && msg in merged.tracker then
        if env.statusWrite then (merged.(tracker := {}, status := Done), Returned(true)) else (merged.(tracker := {}), Raised(false))
      else if !env.semaphore then RetriedOrBuried(merged, env.statusWrite)
      else
        var (after, r) := Processed(msg, merged, env);
        Settled(after, r, env)
  }

  datatype Event = Claim | Attempt(env: Env) | Reclaim | RetryDead | UserStarts | Restart

  /** Anything that can happen to the job between and during attempts; an attempt needs a claimed job. */
  function Next(msg: int, s: State, e: Event): State {
    match e
    case Claim => if s.status == Pending then s.(status := Dispatched) else s
    case Attempt(env) => if s.status == Dispatched then Attempted(msg, s, env).0 else s
    case Reclaim => if s.status == Dispatched then s.(status := Pending) else s
    case RetryDead => if s.status == Dead then s.(status := Pending, retry := 0) else s
    case UserStarts => if s.status == WaitingStart then s.(status := Pending) else s
    case Restart => s.(tracker := {})
  }

  /** The state a run of events leads to. */
  function After(msg: int, events: seq<Event>): State {
    if events == [] then INITIAL else Next(msg, After(msg, events[..|events| - 1]), events[|events| - 1])
  }

  // ---- what one event does ----

  /** The event is an attempt that sends. */
  predicate SendsAt(msg: int, s: State, e: Event) {
    && e.Attempt? && s.status == Dispatched
    && Proceeds(msg, s.retry, s.tracker, s.receipt, e.env) && Sends(msg, s.receipt, s.effect, e.env)
  }

  /** It sends, and the confirmation is lost: a crash comes first, it fails, or there is no row to confirm. */
  predicate LosesAt(msg: int, s: State, e: Event) {
    && SendsAt(msg, s, e)
    && (e.env.crash.AfterSend? || !e.env.confirmWrite.Written? || (e.env.pendingWrite.WriteSilent? && s.receipt.NoRow?))
  }

  /** It sends over a write error the store swallowed, with no PENDING receipt left from before. */
  predicate BareAt(msg: int, s: State, e: Event) {
    SendsAt(msg, s, e) && e.env.pendingWrite.WriteSilent? && s.receipt != Row(PENDING, None)
  }

  /** It gets past a delivered receipt because the read of it failed silently. */
  predicate BlindAt(msg: int, s: State, e: Event) {
    && e.Attempt? && s.status == Dispatched && msg != 0
    && Proceeds(msg, s.retry, s.tracker, s.receipt, e.env) && e.env.receiptRead.ReadSilent? && WasDelivered(s.receipt)
  }

  function One(b: bool): nat {
    if b then 1 else 0
  }

  /** Exactly when an event sends, loses a confirmation, passes over a receipt unseen, or sends without one. */
  lemma NextCounts(msg: int, s: State, e: Event)
    ensures var s' := Next(msg, s, e);
      && s'.sends == s.sends + One(SendsAt(msg, s, e)) && s'.unconfirmed == s.unconfirmed + One(LosesAt(msg, s, e))
      && s'.unseen == s.unseen + One(BlindAt(msg, s, e)) && s'.bareSends == s.bareSends + One(BareAt(msg, s, e))
  {
    if e.Attempt? && s.status == Dispatched {
      AttemptCounts(msg, s, e.env);
    }
  }

  /** The same history: sends, losses and the rest. */
  predicate SameHistory(s: State, s': State) {
    && s'.sends == s.sends && s'.unconfirmed == s.unconfirmed && s'.unseen == s.unseen
    && s'.bareSends == s.bareSends && s'.silentWrites == s.silentWrites
  }

  lemma SettledHistory(s: State, r: Outcome, env: Env)
    ensures SameHistory(s, Settled(s, r, env).0)
  {
  }

  lemma AttemptCounts(msg: int, s: State, env: Env)
    requires s.status == Dispatched
    ensures var s', e := Attempted(msg, s, env).0, Attempt(env);
      && s'.sends == s.sends + One(SendsAt(msg, s, e)) && s'.unconfirmed == s.unconfirmed + One(LosesAt(msg, s, e))
      && s'.unseen == s.unseen + One(BlindAt(msg, s, e)) && s'.bareSends == s.bareSends + One(BareAt(msg, s, e))
  {
    var merged := s.(tracker := TrackerAfter(s.tracker, s.receipt, env));
    if Proceeds(msg, s.retry, s.tracker, s.receipt, env) {
      var (after, r) := Processed(msg, merged, env);
      ProcessedCounts(msg, merged, env);
      SettledHistory(after, r, env);
    } else {
      assert SameHistory(s, Attempted(msg, s, env).0);
    }
  }

  /** When a write-ahead that begins sends. */
  predicate SendsAhead(effect: Effect, env: Env) {
    && !env.crash.BeforeReceipt? && !env.pendingWrite.WriteRaises? && !env.crash.AfterReceipt?
    && env.effectEnters && !effect.Completed? && env.delivery.Delivered?
  }

  lemma WriteAheadCounts(msg: int, s: State, env: Env)
    ensures var s', sends := WriteAhead(msg, s, env).0, SendsAhead(s.effect, env);
      && s'.sends == s.sends + One(sends) && s'.unseen == s.unseen
      && s'.unconfirmed == s.unconfirmed +
        One(sends && (env.crash.AfterSend? || !env.confirmWrite.Written? || (env.pendingWrite.WriteSilent? && s.receipt.NoRow?)))
      && s'.bareSends == s.bareSends + One(sends && env.pendingWrite.WriteSilent? && s.receipt != Row(PENDING, None))
  {
  }

  lemma ProcessedCounts(msg: int, s: State, env: Env)
    ensures var s', sends := Processed(msg, s, env).0, Sends(msg, s.receipt, s.effect, env);
      && s'.sends == s.sends + One(sends)
      && s'.unconfirmed == s.unconfirmed +
        One(sends && (env.crash.AfterSend? || !env.confirmWrite.Written? || (env.pendingWrite.WriteSilent? && s.receipt.NoRow?)))
      && s'.unseen == s.unseen + One(msg != 0 && env.receiptRead.ReadSilent? && WasDelivered(s.receipt))
      && s'.bareSends == s.bareSends + One(sends && env.pendingWrite.WriteSilent? && s.receipt != Row(PENDING, None))
  {
    WriteAheadCounts(msg, Unseen(s), env);
  }

  /** A message whose receipt says it was delivered is sent again only when the read of that receipt failed silently. */
  lemma DeliveredNotResent(msg: int, s: State, e: Event)
    requires WasDelivered(s.receipt) && SendsAt(msg, s, e)
    ensures BlindAt(msg, s, e) && e.env.receiptRead.ReadSilent?
  {
  }

  /** No attempt that returns, with its status write done, leaves the job paused or claimed. */
  lemma AttemptSettles(msg: int, s: State, env: Env)
    requires s.status == Dispatched && env.statusWrite && Attempted(msg, s, env).1.Returned?
    ensures Attempted(msg, s, env).0.status in {Pending, Done, Dead, WaitingStart}
  {
  }

  // ---- the pause for a failed receipt write ----

  /** An attempt pauses the job: it gets to the PENDING write, that raises, and the paused status is written. */
  predicate WritesPause(msg: int, s: State, env: Env) {
    && Proceeds(msg, s.retry, s.tracker, s.receipt, env) && msg != 0 && !env.receiptRead.ReadRaises?
    && !(env.receiptRead.ReadOk? && WasDelivered(s.receipt)) && !env.crash.BeforeReceipt?
    && env.pendingWrite.WriteRaises? && env.pauseWrite
  }

  /** The attempt does not get through with the status of its retry. */
  predicate RetryLost(env: Env) {
    env.crash.BeforeStatus? || !env.statusWrite
  }

  lemma ProcessedStatus(msg: int, s: State, env: Env)
    requires s.status == Dispatched && Proceeds(msg, s.retry, s.tracker, s.receipt, env)
    ensures var (after, r) := Processed(msg, s.(tracker := TrackerAfter(s.tracker, s.receipt, env)), env);
      && after.status == (if WritesPause(msg, s, env) then ReceiptPending else Dispatched) && after.retry == s.retry
      && (WritesPause(msg, s, env) ==> r == Returned(false))
  {
  }

  /** The status a failed attempt ends with. */
  function RetryStatus(s: State, env: Env): JobStatus {
    if RetryLost(env) then s.status else if s.retry + 1 >= 3 then Dead else JobStatus.Pending
  }

  lemma SettledStatus(s: State, r: Outcome, env: Env)
    ensures var s' := Settled(s, r, env).0;
      && (s'.status == ReceiptPending ==> s.status == ReceiptPending)
      && (r == Returned(false) ==> s'.status == RetryStatus(s, env))
  {
  }

  /** A pause survives the attempt that wrote it exactly when the status of the retry is lost: the process dies before it, or its
      write fails. Otherwise the job is pending again or dead. Nothing else leaves a job paused. */
  lemma PauseOverwritten(msg: int, s: State, env: Env)
    requires s.status == Dispatched
    ensures var after := Attempted(msg, s, env).0;
      && (after.status == ReceiptPending <==> WritesPause(msg, s, env) && RetryLost(env))
      && (WritesPause(msg, s, env) && !RetryLost(env) ==> after.status == RetryStatus(s, env))
  {
    if Proceeds(msg, s.retry, s.tracker, s.receipt, env) {
      var (after, r) := Processed(msg, s.(tracker := TrackerAfter(s.tracker, s.receipt, env)), env);
      ProcessedStatus(msg, s, env);
      SettledStatus(after, r, env);
    }
  }

  /** The event leaves the job paused. */
  predicate PausesAt(msg: int, s: State, e: Event) {
    e.Attempt? && s.status == Dispatched && WritesPause(msg, s, e.env) && RetryLost(e.env)
  }

  lemma NextPaused(msg: int, s: State, e: Event)
    ensures Next(msg, s, e).status == ReceiptPending <==> s.status == ReceiptPending || PausesAt(msg, s, e)
  {
    if e.Attempt? && s.status == Dispatched {
      PauseOverwritten(msg, s, e.env);
    }
  }

  /** Event k of the run leaves the job paused. */
  predicate PausedBy(msg: int, events: seq<Event>, k: nat)
    requires k < |events|
  {
    PausesAt(msg, After(msg, events[..k]), events[k])
  }

  lemma PausedByFront(msg: int, events: seq<Event>, k: nat)
    requires k < |events| - 1
    ensures PausedBy(msg, events[..|events| - 1], k) <==> PausedBy(msg, events, k)
  {
    assert events[..|events| - 1][..k] == events[..k];
  }

  /** Over every run: a job is paused exactly when some event left it paused. No event takes it out again. */
  lemma {:induction false} PausedIff(msg: int, events: seq<Event>)
    ensures After(msg, events).status == ReceiptPending <==> exists k :: 0 <= k < |events| && PausedBy(msg, events, k)
  {
    if events != [] {
      var front, last := events[..|events| - 1], |events| - 1;
      PausedIff(msg, front);
      NextPaused(msg, After(msg, front), events[last]);
      assert PausedBy(msg, events, last) <==> PausesAt(msg, After(msg, front), events[last]);
      forall k | 0 <= k < last ensures PausedBy(msg, front, k) <==> PausedBy(msg, events, k) {
        PausedByFront(msg, events, k);
      }
    }
  }

  /** A paused job stays paused, with no further send, whatever happens. */
  lemma {:induction false} PausedForGood(msg: int, events: seq<Event>, more: seq<Event>)
    requires After(msg, events).status == ReceiptPending
    ensures After(msg, events + more).status == ReceiptPending && After(msg, events + more).sends == After(msg, events).sends
  {
    if more == [] {
      assert events + more == events;
    } else {
      PausedForGood(msg, events, more[..|more| - 1]);
      assert (events + more)[..|events + more| - 1] == events + more[..|more| - 1];
    }
  }

  // ---- what a pass leaves in the rows ----

  /** After the message went out: the receipt is confirmed with its id when the confirmation is written to an existing row; the
      effect ends completed, or broken when something after it raised, and stays as it is when the process died or its end could
      not be written; only a pass without any trouble reports success. */
  lemma SendingInFields(msg: int, s: State, env: Env, sentId: int)
    ensures var (s', r) := AfterSending(msg, s, env, sentId);
      var dies := env.crash == AfterSend || env.crash == AfterConfirm;
      && s'.receipt == (if env.crash != AfterSend && env.confirmWrite == Written && s.receipt != NoRow
                        then Row(CONFIRMED, Some(sentId)) else s.receipt)
      && (dies ==> r == Crashed && s'.effect == s.effect && s'.tracker == {})
      && (!dies ==> msg in s'.tracker && s.tracker <= s'.tracker)
      && (!dies && env.effectExits && !env.epilogueRaises ==> r == Returned(true) && s'.effect == Completed(sentId))
      && (!dies && env.effectExits && env.epilogueRaises ==> r == Raised(false) && s'.effect == Broken)
      && (!dies && !env.effectExits ==> r == Raised(false) && s'.effect == s.effect)
      && s'.status == s.status && s'.retry == s.retry && s'.sends == s.sends && s'.silentWrites == s.silentWrites
  {
  }

  /** Inside the effect: nothing happens unless it can be entered; a completed one is never run again, and is taken as delivered
      only when the receipt names the same copy; a refused message marks its receipt failed; a broken call breaks the effect. */
  lemma EffectInFields(msg: int, s: State, env: Env)
    ensures var (s', r) := InsideEffect(msg, s, env);
      && (!env.effectEnters ==> s' == s && r == Raised(false))
      && (env.effectEnters && s.effect.Completed? ==> (
            var known := env.verifyRead == ReadOk && s.receipt.Row? && s.receipt.sentId == Some(s.effect.externalId);
            r == Returned(known) && s' == s.(tracker := if known then s.tracker + {msg} else s.tracker)))
      && (env.effectEnters && !s.effect.Completed? && env.delivery == Breaks ==>
            r == Raised(false) && s' == s.(effect := if env.effectExits then Broken else Running))
      && (env.effectEnters && !s.effect.Completed? && (env.delivery == Refused || env.delivery == Unavailable) ==> (
            && r == Returned(false) && s'.effect == Running && s'.tracker == s.tracker && s'.status == s.status && s'.retry == s.retry
            && s'.receipt == if env.failWrite == Written && s.receipt.Row? then Row(FAILED, s.receipt.sentId) else s.receipt))
      && (env.effectEnters && !s.effect.Completed? && env.delivery.Delivered? ==>
            (s', r) == AfterSending(msg, Sent(s), env, env.delivery.sentId) && Sent(s).effect == Running && Sent(s).receipt == s.receipt
            && Sent(s).tracker == s.tracker && Sent(s).status == s.status && Sent(s).retry == s.retry)
  {
  }

  /** Up to the effect: an unreadable receipt or a missing message ends the pass, a delivered receipt ends it as delivered, the
      PENDING receipt is written before the effect is entered, and one that cannot be written pauses the job instead. */
  lemma PassInFields(msg: int, s: State, env: Env)
    ensures var (s', r) := Processed(msg, s, env);
      var seen := env.receiptRead == ReadOk && s.receipt.Row? && (s.receipt.status == SENT || s.receipt.status == CONFIRMED);
      var begins := msg != 0 && env.receiptRead != ReadRaises && !seen;
      && (msg == 0 ==> s' == s && r == Returned(false))
      && (msg != 0 && env.receiptRead == ReadRaises ==> s' == s && r == Raised(true))
      && (msg != 0 && seen ==> s' == s.(tracker := s.tracker + {msg}) && r == Returned(true))
      && (begins && env.crash == BeforeReceipt ==> r == Crashed && s'.receipt == s.receipt && s'.effect == s.effect && s'.tracker == {})
      && (begins && env.crash != BeforeReceipt && env.pendingWrite == WriteRaises ==> (
            && r == Returned(false) && s'.receipt == s.receipt && s'.effect == s.effect && s'.tracker == s.tracker
            && s'.status == if env.pauseWrite then ReceiptPending else s.status))
      && (begins && env.crash == AfterReceipt && env.pendingWrite == Written ==>
            r == Crashed && s'.receipt == Row(PENDING, None) && s'.effect == s.effect && s'.tracker == {})
      && (begins && env.crash != BeforeReceipt && env.crash != AfterReceipt && env.pendingWrite == Written ==>
            (s', r) == InsideEffect(msg, Unseen(s).(receipt := Row(PENDING, None)), env))
      && (begins && env.crash != BeforeReceipt && env.crash != AfterReceipt && env.pendingWrite == WriteSilent ==>
            (s', r) == InsideEffect(msg, Unseen(s).(silentWrites := s.silentWrites + 1), env))
  {
  }

  /** The status at the end of a pass, and what the attempt returns: done for a delivery that could be written; dead at once after an
      error no retry can mend; otherwise one retry more, or dead after the third; a status that cannot be written raises and stays. */
  lemma EndInFields(s: State, r: Outcome, env: Env)
    ensures var (s', end) := Settled(s, r, env);
      var done := r == Returned(true) && env.doneWrite;
      var hopeless := !done && (r == Returned(true) || r == Raised(false)) && env.permanentError;
      var again := r != Crashed && !done && !hopeless && env.crash != BeforeStatus;
      && s'.receipt == s.receipt && s'.effect == s.effect
      && (r == Crashed ==> s' == s && end == Crashed)
      && (done ==> end == Returned(true) && s'.status == Done && s'.retry == s.retry && s'.tracker == {})
      && (hopeless ==> end == Returned(false) && s' == s.(status := if env.statusWrite then Dead else s.status, tracker := {}))
      && (r != Crashed && !done && !hopeless && env.crash == BeforeStatus ==> end == Crashed && s' == s.(tracker := {}))
      && (again && !env.statusWrite ==> end == Raised(false) && s'.status == s.status && s'.retry == s.retry)
      && (again && env.statusWrite && s.retry >= 2 ==> end == Returned(false) && s' == s.(status := Dead, tracker := {}))
      && (again && env.statusWrite && s.retry < 2 ==>
            end == Returned(false) && s' == s.(status := JobStatus.Pending, retry := s.retry + 1))
  {
  }

  // ---- attempts that end early, and what frees a job ----

  /** An attempt that does not get to the single-file path: a job tried three times is dead; one whose user has not started the bot
      waits, with its retries, receipts and sends as they were; one the tracker or the receipts show as delivered is done; a job
      without a place to send goes back or dies. A status whose write fails stays. */
  lemma EarlyEnds(msg: int, s: State, env: Env)
    requires s.status == Dispatched
    ensures var (s', r) := Attempted(msg, s, env);
      var known := env.sentIdsRead.ReadOk? && WasDelivered(s.receipt) && s.receipt.sentId == Some(msg);
      var delivered := msg != 0 && (msg in s.tracker || known);
      && (s.retry >= 3 ==> s' == s.(tracker := {}, status := if env.statusWrite then Dead else Dispatched))
      && (s.retry < 3 && !env.userStarted ==> s' == s.(status := if env.statusWrite then WaitingStart else Dispatched))
      && (s.retry >= 3 || !env.userStarted ==> r == if env.statusWrite then Returned(false) else Raised(false))
      && (s.retry < 3 && env.userStarted && delivered ==>
            s' == s.(tracker := {}, status := if env.statusWrite then Done else Dispatched)
            && r == if env.statusWrite then Returned(true) else Raised(false))
      && (s.retry < 3 && env.userStarted && !delivered && !env.semaphore && env.statusWrite ==>
            && s'.receipt == s.receipt && s'.effect == s.effect && s'.sends == s.sends && r == Returned(false)
            && if s.retry == 2 then s'.status == Dead && s'.retry == 2 else s'.status == JobStatus.Pending && s'.retry == s.retry + 1)
  {
  }

  /** What every other event does to the job. */
  lemma OtherEvents(msg: int, s: State)
    ensures Next(msg, s, Claim) == s.(status := if s.status == JobStatus.Pending then Dispatched else s.status)
    ensures Next(msg, s, Reclaim) == s.(status := if s.status == Dispatched then JobStatus.Pending else s.status)
    ensures Next(msg, s, UserStarts) == s.(status := if s.status == WaitingStart then JobStatus.Pending else s.status)
    ensures Next(msg, s, RetryDead) == if s.status == Dead then s.(status := JobStatus.Pending, retry := 0) else s
    ensures Next(msg, s, Restart) == s.(tracker := {})
  {
  }

  // ---- what every run keeps ----

  /** Every send is accounted for, and everything that counts as evidence of a delivery is backed by a send. */
  predicate Inv(s: State) {
    && s.sends <= s.unconfirmed + s.unseen + Credit(s.receipt)
    && s.bareSends <= s.silentWrites
    && (WasDelivered(s.receipt) || s.effect.Completed? || s.tracker != {} || s.status == Done ==> s.sends >= 1)
    && (s.receipt.Row? && s.receipt.sentId.Some? ==> s.sends >= 1)
  }

  /** A path that reports a delivery is backed by a send. */
  predicate Vouched(p: (State, Outcome)) {
    Inv(p.0) && (p.1 == Returned(true) ==> p.0.sends >= 1)
  }

  lemma InsideEffectKeepsInv(msg: int, s: State, env: Env)
    requires Inv(s) && s.sends <= s.unconfirmed + s.unseen
    requires s.receipt == Row(PENDING, None) || s.bareSends < s.silentWrites
    ensures Vouched(InsideEffect(msg, s, env))
  {
  }

  /** Past the receipt check no send is vouched for by the row alone. */
  lemma WriteAheadKeepsInv(msg: int, s: State, env: Env)
    requires Inv(s) && s.sends <= s.unconfirmed + s.unseen
    ensures Vouched(WriteAhead(msg, s, env))
  {
    var written := Recorded(s, env.pendingWrite);
    assert Inv(written);
    if !env.pendingWrite.WriteRaises? {
      InsideEffectKeepsInv(msg, written, env);
    }
  }

  /** A delivered receipt that goes unseen counts as such. */
  lemma UnseenKeepsInv(s: State)
    requires Inv(s)
    ensures Inv(Unseen(s)) && Unseen(s).sends <= Unseen(s).unconfirmed + Unseen(s).unseen
  {
  }

  lemma ProcessedKeepsInv(msg: int, s: State, env: Env)
    requires Inv(s)
    ensures Vouched(Processed(msg, s, env))
  {
    if msg == 0 || env.receiptRead.ReadRaises? {
      assert Processed(msg, s, env).0 == s;
    } else if WasDelivered(s.receipt) && env.receiptRead.ReadOk? {
      assert Processed(msg, s, env).0 == s.(tracker := s.tracker + {msg});
    } else {
      UnseenKeepsInv(s);
      WriteAheadKeepsInv(msg, Unseen(s), env);
    }
  }

  lemma AttemptKeepsInv(msg: int, s: State, env: Env)
    requires Inv(s)
    ensures Inv(Attempted(msg, s, env).0)
  {
    var merged := s.(tracker := TrackerAfter(s.tracker, s.receipt, env));
    ProcessedKeepsInv(msg, merged, env);
  }

  lemma {:induction false} RunKeepsInv(msg: int, events: seq<Event>)
    ensures Inv(After(msg, events))
  {
    if events != [] {
      RunKeepsInv(msg, events[..|events| - 1]);
      var s, e := After(msg, events[..|events| - 1]), events[|events| - 1];
      if e.Attempt? {
        AttemptKeepsInv(msg, s, e.env);
      }
    }
  }

  /** Over every run the successful sends of the message number at most one, plus the sends whose confirmation was lost, plus
      the times a delivered receipt was not seen for a swallowed read error; sends without a persisted PENDING receipt number at
      most the swallowed write errors; and a job marked done was sent. */
  lemma SendsBounded(msg: int, events: seq<Event>)
    ensures var s := After(msg, events);
      && s.sends <= 1 + s.unconfirmed + s.unseen && s.bareSends <= s.silentWrites && (s.status == Done ==> s.sends >= 1)
  {
    RunKeepsInv(msg, events);
  }

  /** Without lost confirmations and swallowed errors the message is sent at most once, over every run. */
  lemma {:induction false} SentOnce(msg: int, events: seq<Event>)
    requires forall k :: 0 <= k < |events| ==>
      !LosesAt(msg, After(msg, events[..k]), events[k]) && !BlindAt(msg, After(msg, events[..k]), events[k])
    ensures After(msg, events).sends <= 1 && After(msg, events).unconfirmed == After(msg, events).unseen == 0
  {
    if events != [] {
      var front := events[..|events| - 1];
      forall k | 0 <= k < |front|
        ensures !LosesAt(msg, After(msg, front[..k]), front[k]) && !BlindAt(msg, After(msg, front[..k]), front[k])
      {
        assert front[..k] == events[..k] && front[k] == events[k];
      }
      SentOnce(msg, front);
      NextCounts(msg, After(msg, front), events[|front|]);
      SendsBounded(msg, events);
    }
  }

  // ---- the bot ----

  class SingleFileJob {
    const msg: int             // source message id; 0 when the job lists none
    var status: JobStatus
    var retry: nat
    var receipt: Receipt
    var effect: Effect
    var tracker: set<int>      // in-process sent-message tracker entry of the job

    ghost var sends: nat
    ghost var unconfirmed: nat
    ghost var unseen: nat
    ghost var bareSends: nat
    ghost var silentWrites: nat

    ghost function Now(): State
      reads this
    {
      State(status, retry, receipt, effect, tracker, sends, unconfirmed, unseen, bareSends, silentWrites)
    }

    constructor (msg: int)
      ensures this.msg == msg && Now() == INITIAL
    {
      this.msg := msg;
      status, retry, receipt, effect, tracker := Pending, 0, NoRow, NoEffect, {};
      sends, unconfirmed, unseen, bareSends, silentWrites := 0, 0, 0, 0, 0;
    }

    // ---- store operations ----

    /** CAS claim: true exactly when it moved the job from pending to dispatched. */
    method MarkDispatched() returns (claimed: bool)
      modifies this`status
      ensures claimed == (old(status) == Pending)
      ensures status == if claimed then Dispatched else old(status)
    {
      if status != Pending {
        return false;
      }
      status := Dispatched;
      return true;
    }

    /** INSERT OR REPLACE of a PENDING row: an older row is gone, whatever its status. */
    method UpsertPending(w: Write) returns (ok: bool)
      modifies this`receipt, this`silentWrites
      ensures ok == !w.WriteRaises? && Now() == Recorded(old(Now()), w)
      ensures receipt == if w.Written? then Row(PENDING, None) else old(receipt)
    {
      if w.WriteRaises? {
        return false;
      }
      if w.WriteSilent? {
        silentWrites := silentWrites + 1;
      } else {
        receipt := Row(PENDING, None);
      }
      return true;
    }

    /** UPDATE to CONFIRMED; without a row nothing is updated. */
    method Confirm(sentId: int, w: Write)
      modifies this`receipt, this`unconfirmed
      ensures Now() == Confirmed(old(Now()), sentId, w)
      ensures if w.Written? && old(receipt).Row? then receipt == Row(CONFIRMED, Some(sentId)) && unconfirmed == old(unconfirmed)
              else receipt == old(receipt) && unconfirmed == old(unconfirmed) + 1
    {
      if w.Written? && receipt.Row? {
        receipt := Row(CONFIRMED, Some(sentId));
      } else {
        unconfirmed := unconfirmed + 1;
      }
    }

    /** UPDATE to FAILED, of whatever row there is. */
    method MarkFailed(w: Write)
      modifies this`receipt
      ensures receipt == Failed(old(receipt), w)
    {
      if w.Written? && receipt.Row? {
        receipt := receipt.(status := FAILED);
      }
    }

    // ---- one attempt ----

    /** From a message that went out to the end of the effect. */
    method FinishSending(env: Env, sentId: int) returns (r: Outcome)
      modifies this
      ensures (Now(), r) == AfterSending(msg, old(Now()), env, sentId)
    {
      if env.crash.AfterSend? {
        unconfirmed := unconfirmed + 1;
        tracker := {};
        return Crashed;
      }
      tracker := tracker + {msg};
      Confirm(sentId, env.confirmWrite);
      if env.crash.AfterConfirm? {
        tracker := {};
        return Crashed;
      }
      if env.epilogueRaises {
        if env.effectExits {
          effect := Broken;
        }
        return Raised(false);
      }
      if !env.effectExits {
        return Raised(false);
      }
      effect := Completed(sentId);
      return Returned(true);
    }

    /** The part of an attempt inside the effect receipt: it sends exactly when the effect is entered, not completed, and the
        message goes out; a faultless pass over an existing row ends confirmed and completed. */
    method SendInsideEffect(env: Env) returns (r: Outcome)
      modifies this
      ensures (Now(), r) == InsideEffect(msg, old(Now()), env)
      ensures sends == old(sends) + One(env.effectEnters && !old(effect).Completed? && env.delivery.Delivered?)
      ensures bareSends == old(bareSends) + One(sends > old(sends) && old(receipt) != Row(PENDING, None))
      ensures Faultless(env) && old(receipt).Row? && !old(effect).Completed? ==>
        && r == Returned(true)
        && receipt == Row(CONFIRMED, Some(env.delivery.sentId)) && effect == Completed(env.delivery.sentId)
    {
      if !env.effectEnters {
        return Raised(false);
      }
      if effect.Completed? {
        if env.verifyRead.ReadOk? && receipt.Row? && receipt.sentId == Some(effect.externalId) {
          tracker := tracker + {msg};
          return Returned(true);
        }
        return Returned(false);
      }
      effect := Running;
      match env.delivery {
        case Breaks =>
          if env.effectExits {
            effect := Broken;
          }
          return Raised(false);
        case Refused =>
          MarkFailed(env.failWrite);
          return Returned(false);
        case Unavailable =>
          MarkFailed(env.failWrite);
          return Returned(false);
        case Delivered(sentId) =>
          sends := sends + 1;
          if receipt != Row(PENDING, None) {
            bareSends := bareSends + 1;
          }
          r := FinishSending(env, sentId);
      }
    }

    /** The single-file send with its receipts. It sends at most once, and never when a delivered receipt is seen, the effect
        is completed, or the PENDING write raised. */
    method ProcessSingleJob(env: Env) returns (r: Outcome)
      modifies this
      ensures (Now(), r) == Processed(msg, old(Now()), env)
      ensures sends == old(sends) + One(Sends(msg, old(receipt), old(effect), env))
      ensures env.receiptRead.ReadOk? && WasDelivered(old(receipt)) && msg != 0 ==> r == Returned(true) && receipt == old(receipt)
      ensures Faultless(env) && Sends(msg, old(receipt), old(effect), env) ==>
        r == Returned(true) && receipt == Row(CONFIRMED, Some(env.delivery.sentId)) && effect == Completed(env.delivery.sentId)
    {
      if msg == 0 {
        return Returned(false);
      }
      if env.receiptRead.ReadRaises? {
        return Raised(true);
      }
      if WasDelivered(receipt) {
        if env.receiptRead.ReadOk? {
          tracker := tracker + {msg};
          return Returned(true);
        }
        unseen := unseen + 1;
      }
      if env.crash.BeforeReceipt? {
        tracker := {};
        return Crashed;
      }
      var persisted := UpsertPending(env.pendingWrite);
      if !persisted {
        if env.pauseWrite {
          status := ReceiptPending;
        }
        return Returned(false);
      }
      if env.crash.AfterReceipt? {
        tracker := {};
        return Crashed;
      }
      r := SendInsideEffect(env);
    }

    /** Back to pending with a higher retry count, or dead-lettered at three. */
    method RetryOrBury(env: Env) returns (r: Outcome)
      modifies this`status, this`retry, this`tracker
      ensures (Now(), r) == RetriedOrBuried(old(Now()), env.statusWrite)
      ensures r == (if env.statusWrite then Returned(false) else Raised(false))
      ensures env.statusWrite && old(retry) + 1 >= 3 ==> status == Dead && retry == old(retry)
      ensures env.statusWrite && old(retry) + 1 < 3 ==> status == Pending && retry == old(retry) + 1
    {
      var newRetry := retry + 1;
      if newRetry >= 3 {
        tracker := {};
        if !env.statusWrite {
          return Raised(false);
        }
        status := Dead;
      } else {
        if !env.statusWrite {
          return Raised(false);
        }
        status, retry := Pending, newRetry;
      }
      return Returned(false);
    }

    /** The status write after the single-file path. */
    method Settle(outcome: Outcome, env: Env) returns (r: Outcome)
      modifies this`status, this`retry, this`tracker
      ensures (Now(), r) == Settled(old(Now()), outcome, env)
    {
      if outcome.Crashed? {
        return Crashed;
      }
      var result := outcome;
      if result == Returned(true) {
        if env.doneWrite {
          status := Done;
          tracker := {};
          return Returned(true);
        }
        result := Raised(false);
      }
      if result == Raised(false) && env.permanentError {
        tracker := {};
        if env.statusWrite {
          status := Dead;
        }
        return Returned(false);
      }
      if env.crash.BeforeStatus? {
        tracker := {};
        return Crashed;
      }
      r := RetryOrBury(env);
    }

    /** One attempt of a claimed job, from the dead-letter check to the final status. */
    method SendOneJob(env: Env) returns (r: Outcome)
      requires status == Dispatched
      modifies this
      ensures (Now(), r) == Attempted(msg, old(Now()), env)
      ensures sends == old(sends) + One(SendsAt(msg, old(Now()), Attempt(env)))
      ensures bareSends == old(bareSends) + One(BareAt(msg, old(Now()), Attempt(env)))
      // a pause for a failed receipt write outlives the attempt exactly when the status of the retry is lost
      ensures status == ReceiptPending <==> PausesAt(msg, old(Now()), Attempt(env))
      ensures r.Returned? && env.statusWrite ==> status != ReceiptPending && status != Dispatched
    {
      AttemptCounts(msg, Now(), env);
      PauseOverwritten(msg, Now(), env);
      if env.statusWrite && Attempted(msg, Now(), env).1.Returned? {
        AttemptSettles(msg, Now(), env);
      }
      if retry >= 3 {
        tracker := {};
        if !env.statusWrite {
          return Raised(false);
        }
        status := Dead;
        return Returned(false);
      }
      if !env.userStarted {
        if !env.statusWrite {
          return Raised(false);
        }
        status := WaitingStart;
        return Returned(false);
      }
      r := SendUndelivered(env);
    }

    /** The rest of the attempt: nothing is sent for a message the tracker or the receipts show as delivered. */
    method SendUndelivered(env: Env) returns (r: Outcome)
      requires retry < 3 && env.userStarted
      modifies this
      ensures (Now(), r) == Attempted(msg, old(Now()), env)
    {
      if env.sentIdsRead.ReadOk? {
        tracker := tracker + SentIds(receipt);
      }
      if msg != 0 && msg in tracker {
        tracker := {};
        if !env.statusWrite {
          return Raised(false);
        }
        status := Done;
        return Returned(true);
      }
      if !env.semaphore {
        r := RetryOrBury(env);
        return;
      }
      var outcome := ProcessSingleJob(env);
      r := Settle(outcome, env);
    }

    // ---- runs ----

    /** One event: never two sends, and a send over a delivered receipt only after a swallowed read error. */
    method Step(e: Event)
      modifies this
      ensures Now() == Next(msg, old(Now()), e)
      ensures sends == old(sends) + One(SendsAt(msg, old(Now()), e))
      ensures sends > old(sends) && WasDelivered(old(receipt)) ==> e.env.receiptRead.ReadSilent?
    {
      match e {
        case Claim =>
          var _ := MarkDispatched();
        case Attempt(env) =>
          if status == Dispatched {
            var _ := SendOneJob(env);
          }
        case Reclaim =>
          if status == Dispatched {
            status := Pending;
          }
        case RetryDead =>
          if status == Dead {
            status, retry := Pending, 0;
          }
        case UserStarts =>
          if status == WaitingStart {
            status := Pending;
          }
        case Restart =>
          tracker := {};
      }
    }

    /** The events in turn lead to the state the protocol gives, so the bounds over runs hold of the bot. */
    method Run(events: seq<Event>)
      requires Now() == INITIAL
      modifies this
      ensures Now() == After(msg, events)
      ensures sends <= 1 + unconfirmed + unseen && bareSends <= silentWrites
    {
      for k := 0 to |events|
        invariant Now() == After(msg, events[..k])
      {
        assert events[..k + 1][..k] == events[..k];
        Step(events[k]);
      }
      assert events[..|events|] == events;
      SendsBounded(msg, events);
    }
  }

  // ---- a swallowed read error ----

  lemma AfterSnoc(msg: int, events: seq<Event>, e: Event)
    ensures After(msg, events + [e]) == Next(msg, After(msg, events), e)
  {
    assert (events + [e])[..|events|] == events;
  }

  const FAULTLESS := Env(true, ReadOk, true, ReadOk, Written, true, true, ReadOk, Delivered(70), Written, Written, false, true, true,
                         false, true, NoCrash)

  /** The store's swallowed read error is a cause of its own: a message sent and confirmed, whose process dies before the effect
      is completed, is sent again when the next attempt's reads fail silently, without any lost confirmation. */
  lemma SwallowedReadSendsAgain() returns (events: seq<Event>)
    ensures |events| == 5 && events[0] == Claim && events[1] == Attempt(FAULTLESS.(crash := AfterConfirm)) && events[2] == Reclaim
    ensures events[3] == Claim && events[4] == Attempt(FAULTLESS.(sentIdsRead := ReadSilent, receiptRead := ReadSilent))
    ensures After(7, events[..2]).receipt == Row(CONFIRMED, Some(70)) && After(7, events[..2]).sends == 1
    ensures After(7, events).sends == 2 && After(7, events).unconfirmed == After(7, events).bareSends == 0
  {
    var crashing := Attempt(FAULTLESS.(crash := AfterConfirm));
    var blind := Attempt(FAULTLESS.(sentIdsRead := ReadSilent, receiptRead := ReadSilent));
    events := [Claim, crashing, Reclaim, Claim, blind];
    FirstAttempt(crashing.env);
    AfterReclaim(crashing, blind);
  }

  // ---- a swallowed write error, and the two ends of a pause ----

  lemma FirstAttempt(env: Env)
    ensures After(7, [Claim, Attempt(env)]) == Attempted(7, INITIAL.(status := Dispatched), env).0
  {
    AfterSnoc(7, [], Claim);
    AfterSnoc(7, [Claim], Attempt(env));
    assert [] + [Claim] == [Claim] && [Claim] + [Attempt(env)] == [Claim, Attempt(env)];
    assert After(7, [Claim]) == INITIAL.(status := Dispatched);
  }

  /** The store's swallowed write error: a message goes out, and the job is done, without any receipt ever written; a process
      that dies after such a send leaves nothing behind, and the message goes out again. */
  lemma SwallowedWriteSendsBare() returns (done: seq<Event>, again: seq<Event>)
    ensures done == [Claim, Attempt(FAULTLESS.(pendingWrite := WriteSilent))]
    ensures var s := After(7, done); s.status == Done && s.sends == s.bareSends == 1 && s.receipt == NoRow
    ensures again == [Claim, Attempt(FAULTLESS.(pendingWrite := WriteSilent, crash := AfterSend)), Reclaim, Claim, Attempt(FAULTLESS)]
    ensures After(7, again[..2]).receipt == NoRow && After(7, again[..2]).sends == 1
    ensures After(7, again).sends == 2 && After(7, again).receipt == Row(CONFIRMED, Some(70))
  {
    var silent := FAULTLESS.(pendingWrite := WriteSilent);
    var crashing := Attempt(silent.(crash := AfterSend));
    done, again := [Claim, Attempt(silent)], [Claim, crashing, Reclaim, Claim, Attempt(FAULTLESS)];
    FirstAttempt(silent);
    FirstAttempt(crashing.env);
    AfterReclaim(crashing, Attempt(FAULTLESS));
  }

  /** A second attempt after a first one that did not settle the job. */
  lemma AfterReclaim(first: Event, second: Event)
    ensures var events := [Claim, first, Reclaim, Claim, second];
      && events[..2] == [Claim, first]
      && After(7, events) == Next(7, Next(7, Next(7, After(7, [Claim, first]), Reclaim), Claim), second)
  {
    AfterSnoc(7, [Claim, first], Reclaim);
    AfterSnoc(7, [Claim, first, Reclaim], Claim);
    AfterSnoc(7, [Claim, first, Reclaim, Claim], second);
    assert [Claim, first] + [Reclaim] == [Claim, first, Reclaim];
    assert [Claim, first, Reclaim] + [Claim] == [Claim, first, Reclaim, Claim];
    assert [Claim, first, Reclaim, Claim] + [second] == [Claim, first, Reclaim, Claim, second];
    assert [Claim, first, Reclaim, Claim, second][..2] == [Claim, first];
  }

  /** The same failed receipt write twice: the pause is overwritten and the next attempt delivers; or the process dies before the
      status of the retry, and the job is paused for good, whatever happens later. */
  lemma PauseHasTwoEnds(more: seq<Event>) returns (overwritten: seq<Event>, stuck: seq<Event>)
    ensures overwritten == [Claim, Attempt(FAULTLESS.(pendingWrite := WriteRaises))]
    ensures WritesPause(7, After(7, overwritten[..1]), overwritten[1].env)
    ensures After(7, overwritten).status == JobStatus.Pending && After(7, overwritten).retry == 1
    ensures stuck == [Claim, Attempt(FAULTLESS.(pendingWrite := WriteRaises, crash := BeforeStatus))] + more
    ensures After(7, stuck).status == ReceiptPending && After(7, stuck).sends == 0
  {
    var raising := FAULTLESS.(pendingWrite := WriteRaises);
    var dying := raising.(crash := BeforeStatus);
    overwritten := [Claim, Attempt(raising)];
    assert overwritten[..1] == [Claim];
    AfterSnoc(7, [], Claim);
    assert [] + [Claim] == [Claim];
    FirstAttempt(raising);
    FirstAttempt(dying);
    stuck := [Claim, Attempt(dying)] + more;
    PausedForGood(7, [Claim, Attempt(dying)], more);
  }

  /** No fault of the store, the effect manager, the user or Telegram, and no crash. */
  predicate Faultless(env: Env) {
    && env.userStarted && env.sentIdsRead.ReadOk? && env.semaphore && env.receiptRead.ReadOk? && env.pendingWrite.Written?
    && env.effectEnters && env.verifyRead.ReadOk? && env.delivery.Delivered? && env.confirmWrite.Written?
    && !env.epilogueRaises && env.effectExits && env.doneWrite && env.statusWrite && env.crash.NoCrash?
  }

  /** A faultless attempt of a claimed job delivers it, once: a job not delivered before is sent and confirmed, one with a
      delivered receipt is marked done without a send. */
  lemma FaultlessAttemptDelivers(msg: int, s: State, env: Env)
    requires Faultless(env) && msg != 0 && s.status == Dispatched && s.retry < 3
    ensures var (s', r) := Attempted(msg, s, env);
      && (WasDelivered(s.receipt) ==> r == Returned(true) && s'.status == Done && s'.sends == s.sends)
      && (!WasDelivered(s.receipt) && !s.effect.Completed? && s.tracker == {} ==>
          && r == Returned(true) && s'.status == Done && s'.sends == s.sends + 1
          && s'.receipt == Row(CONFIRMED, Some(env.delivery.sentId)))
  {
  }

  /** Over every run: a job whose user has not started the bot waits, without a retry counted; it is pending again as soon as the user
      does, and a job never sent before is delivered by the next faultless attempt, with one send. */
  lemma WaitingJobIsDelivered(msg: int, events: seq<Event>, env: Env, good: Env)
    requires msg != 0 && After(msg, events).status == Dispatched && After(msg, events).retry < 3
    requires !env.userStarted && env.statusWrite && Faultless(good)
    ensures var s, waiting := After(msg, events), After(msg, events + [Attempt(env)]);
      waiting.status == WaitingStart && waiting.retry == s.retry && waiting.receipt == s.receipt && waiting.sends == s.sends
    ensures var s, freed := After(msg, events), After(msg, events + [Attempt(env), UserStarts]);
      freed.status == JobStatus.Pending && freed.retry == s.retry && freed.receipt == s.receipt && freed.sends == s.sends
    ensures var s, end := After(msg, events), After(msg, events + [Attempt(env), UserStarts, Claim, Attempt(good)]);
      && (s.sends == 0 ==> end.status == Done && end.sends == 1 && end.receipt == Row(CONFIRMED, Some(good.delivery.sentId)))
      && (WasDelivered(s.receipt) ==> end.status == Done && end.sends == s.sends)
  {
    var s, waiting := After(msg, events), Next(msg, After(msg, events), Attempt(env));
    FourMore(msg, events, Attempt(env), UserStarts, Claim, Attempt(good));
    EarlyEnds(msg, s, env);
    RunKeepsInv(msg, events);
    FaultlessAttemptDelivers(msg, s, good);
    assert Next(msg, Next(msg, waiting, UserStarts), Claim) == s;
  }

  lemma FourMore(msg: int, events: seq<Event>, a: Event, b: Event, c: Event, d: Event)
    ensures After(msg, events + [a]) == Next(msg, After(msg, events), a)
    ensures After(msg, events + [a, b]) == Next(msg, After(msg, events + [a]), b)
    ensures After(msg, events + [a, b, c, d]) == Next(msg, Next(msg, After(msg, events + [a, b]), c), d)
  {
    AfterSnoc(msg, events, a);
    TwoMore(msg, events, a, b);
    TwoMore(msg, events + [a, b], c, d);
    Joined(events, [a, b], [c, d], [a, b, c, d]);
  }

  lemma TwoMore(msg: int, events: seq<Event>, a: Event, b: Event)
    ensures After(msg, events + [a, b]) == Next(msg, Next(msg, After(msg, events), a), b)
  {
    AfterSnoc(msg, events, a);
    AfterSnoc(msg, events + [a], b);
    Joined(events, [a], [b], [a, b]);
  }

  lemma Joined<T>(events: seq<T>, a: seq<T>, b: seq<T>, c: seq<T>)
    requires a + b == c
    ensures events + a + b == events + c
  {
  }
}
