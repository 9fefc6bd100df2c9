/** Replay protection for one-time codes (section 5.2 of RFC 6238): verifiers in several processes match a code
    to a timestep and later consume it through a uniqueness constraint, while a cleanup deletes old rows. */
module Totp {

  const STEP := 30.0

  datatype Option<T> = None | Some(value: T)

  /** int(t // 30) */
  function TimestepAt(t: real): int {
    (t / STEP).Floor
  }

  /** The first of the previous, current and next timestep whose code is the given one. Code generation is a parameter. */
  function FindMatchingTimestep(generate: (string, int) -> string, secret: string, code: string, now: real): (r: Option<int>)
    ensures r.Some? ==> generate(secret, r.value) == code && TimestepAt(now) - 1 <= r.value <= TimestepAt(now) + 1
    ensures r.None? && secret != "" && code != "" ==>
      forall step :: TimestepAt(now) - 1 <= step <= TimestepAt(now) + 1 ==> generate(secret, step) != code
    ensures secret == "" || code == "" ==> r.None?
    ensures r.Some? ==> forall step :: TimestepAt(now) - 1 <= step < r.value ==> generate(secret, step) != code
  {
    var current := TimestepAt(now);
    if secret == "" || code == "" then None
    else if generate(secret, current - 1) == code then Some(current - 1)
    else if generate(secret, current) == code then Some(current)
    else if generate(secret, current + 1) == code then Some(current + 1)
    else None
  }

  /** Key of mfa_used_totp: UNIQUE(principal_id, timestep). */
  datatype Use = Use(principal: int, timestep: int)

  /** INSERT OR IGNORE */
  function InsertOrIgnore(used: map<Use, real>, u: Use, now: real): map<Use, real> {
    if u in used then used else used[u := now]
  }

  /** DELETE FROM mfa_used_totp WHERE used_at < now - retention_hours * 3600 */
  function DeleteBefore(used: map<Use, real>, cutoff: real): map<Use, real> {
    map u | u in used && !(used[u] < cutoff) :: used[u]
  }

  class UsedCodes {
    var used: map<Use, real>

    constructor ()
      ensures used == map[]
    {
      used := map[];
    }

    /** True exactly for the first use of a timestep; without the store nothing is consumed. */
    method ConsumeTimestep(principal: int, timestep: int, now: real, storeUp: bool) returns (first: bool)
      modifies this
      ensures first <==> principal != 0 && storeUp && Use(principal, timestep) !in old(used)
      ensures used == if principal != 0 && storeUp then InsertOrIgnore(old(used), Use(principal, timestep), now) else old(used)
      // the first use leaves its row, a later one changes nothing
      ensures used == if first then old(used)[Use(principal, timestep) := now] else old(used)
    {
      if principal == 0 || !storeUp {
        return false;
      }
      var u := Use(principal, timestep);
      if u in used {
        return false;
      }
      used := used[u := now];
      return true;
    }

    method CleanupExpired(now: real, retentionHours: nat, storeUp: bool)
      modifies this
      ensures used == if storeUp then DeleteBefore(old(used), now - retentionHours as real * 3600.0) else old(used)
      ensures forall u :: u in used <==> u in old(used) && (storeUp ==> now - old(used)[u] <= retentionHours as real * 3600.0)
      ensures forall u :: u in used ==> used[u] == old(used)[u]
    {
      if storeUp {
        var rows := used;
        used := map u | u in rows && !(rows[u] < now - retentionHours as real * 3600.0) :: rows[u];
      }
    }
  }

  // ---- all interleavings ----

  /** A verifier between its match and its consume. */
  datatype Attempt = Attempt(use: Use, matchedAt: real)

  /** accepted: every acceptance so far, in order. */
  datatype State = State(clock: real, used: map<Use, real>, attempts: seq<Attempt>, accepted: seq<Use>)

  datatype Event =
    | Tick(to: real)
    | Match(principal: int, secret: string, code: string)
    | Consume(i: nat, storeUp: bool, cleared: bool) // cleared: the failure records could be deleted
    | Abandon(i: nat)
    | Cleanup(retentionHours: nat)

  /** hours: no cleanup keeps rows for less. delay: no verifier takes longer from match to consume. */
  datatype Setup = Setup(generate: (string, int) -> string, hours: nat, delay: real)

  predicate Enabled(c: Setup, s: State, e: Event) {
    match e
    case Tick(to) => s.clock <= to
    case Match(principal, secret, code) => principal != 0 && FindMatchingTimestep(c.generate, secret, code, s.clock).Some?
    case Consume(i, _, _) => i < |s.attempts| && s.clock - s.attempts[i].matchedAt <= c.delay
    case Abandon(i) => i < |s.attempts|
    case Cleanup(hours) => c.hours <= hours
  }

  function Without(attempts: seq<Attempt>, i: nat): seq<Attempt>
    requires i < |attempts|
  {
    attempts[..i] + attempts[i + 1..]
  }

  function Step(c: Setup, s: State, e: Event): State
    requires Enabled(c, s, e)
  {
    match e
    case Tick(to) => s.(clock := to)
    case Match(principal, secret, code) =>
      s.(attempts := s.attempts + [Attempt(Use(principal, FindMatchingTimestep(c.generate, secret, code, s.clock).value), s.clock)])
    case Consume(i, storeUp, cleared) =>
      var u := s.attempts[i].use;
      State(s.clock, if storeUp then InsertOrIgnore(s.used, u, s.clock) else s.used, Without(s.attempts, i),
            if storeUp && u !in s.used && cleared then s.accepted + [u] else s.accepted)
    case Abandon(i) => s.(attempts := Without(s.attempts, i))
    case Cleanup(hours) => s.(used := DeleteBefore(s.used, s.clock - hours as real * 3600.0))
  }

  /** A verifier begins at its match and ends at its consumption or when it is given up; cleanups and the clock touch no verifier. */
  lemma AttemptsAfter(c: Setup, s: State, e: Event)
    requires Enabled(c, s, e)
    ensures e.Match? ==> exists step ::
      FindMatchingTimestep(c.generate, e.secret, e.code, s.clock) == Some(step)
      && Step(c, s, e).attempts == s.attempts + [Attempt(Use(e.principal, step), s.clock)]
    ensures e.Consume? || e.Abandon? ==> Step(c, s, e).attempts == s.attempts[..e.i] + s.attempts[e.i + 1..]
    ensures e.Tick? || e.Cleanup? ==> Step(c, s, e).attempts == s.attempts
    ensures !e.Consume? ==> Step(c, s, e).accepted == s.accepted && (!e.Cleanup? ==> Step(c, s, e).used == s.used)
  {
  }

  function After(c: Setup, start: real, events: seq<Event>): State {
    if events == [] then State(start, map[], [], [])
    else
      var before := After(c, start, events[..|events| - 1]);
      if Enabled(c, before, events[|events| - 1]) then Step(c, before, events[|events| - 1]) else before
  }

  predicate Runs(c: Setup, start: real, events: seq<Event>) {
    events == [] || (Runs(c, start, events[..|events| - 1]) && Enabled(c, After(c, start, events[..|events| - 1]), events[|events| - 1]))
  }

  /** No (principal, timestep) is accepted twice. */
  ghost predicate AcceptedOnce(accepted: seq<Use>) {
    forall i, j :: 0 <= i < j < |accepted| ==> accepted[i] != accepted[j]
  }

  ghost function Retention(c: Setup): real {
    c.hours as real * 3600.0
  }

  /** The first instant whose timestep is step. */
  function StartOf(step: int): real {
    step as real * STEP
  }

  lemma TimestepRange(t: real)
    ensures StartOf(TimestepAt(t)) <= t < StartOf(TimestepAt(t) + 1)
  {
    var q := t / STEP;
    assert q.Floor as real <= q < q.Floor as real + 1.0;
    assert q * STEP == t;
  }

  /** While a code can still be consumed, the row of its earlier use is still there. */
  ghost predicate RowsLast(c: Setup, s: State) {
    forall i :: 0 <= i < |s.accepted| ==>
      s.accepted[i] in s.used || s.clock > StartOf(s.accepted[i].timestep - 1) + Retention(c)
  }

  ghost predicate RowsInv(s: State) {
    forall u :: u in s.used ==> StartOf(u.timestep - 1) <= s.used[u] <= s.clock
  }

  ghost predicate AttemptsInv(s: State) {
    forall i :: 0 <= i < |s.attempts| ==>
      var a := s.attempts[i]; StartOf(a.use.timestep - 1) <= a.matchedAt <= s.clock && a.matchedAt < StartOf(a.use.timestep + 2)
  }

  ghost predicate Inv(c: Setup, s: State) {
    RowsLast(c, s) && RowsInv(s) && AttemptsInv(s) && AcceptedOnce(s.accepted)
  }

  lemma MatchedInWindow(c: Setup, secret: string, code: string, now: real)
    requires FindMatchingTimestep(c.generate, secret, code, now).Some?
    ensures var step := FindMatchingTimestep(c.generate, secret, code, now).value; StartOf(step - 1) <= now < StartOf(step + 2)
  {
    TimestepRange(now);
  }

  lemma ConsumeKeepsOnce(c: Setup, s: State, i: nat)
    requires Inv(c, s) && i < |s.attempts| && s.clock - s.attempts[i].matchedAt <= c.delay && c.delay <= Retention(c) - 90.0
    ensures s.attempts[i].use in s.accepted ==> s.attempts[i].use in s.used
  {
    var a := s.attempts[i];
    assert a.matchedAt < StartOf(a.use.timestep - 1) + 90.0;
  }

  lemma CleanupKeepsRows(c: Setup, s: State, hours: nat)
    requires RowsLast(c, s) && RowsInv(s) && c.hours <= hours
    ensures RowsLast(c, Step(c, s, Cleanup(hours))) && RowsInv(Step(c, s, Cleanup(hours)))
  {
    assert hours as real * 3600.0 >= Retention(c);
  }

  lemma StepKeepsInv(c: Setup, s: State, e: Event)
    requires Inv(c, s) && Enabled(c, s, e) && c.delay <= Retention(c) - 90.0
    ensures Inv(c, Step(c, s, e))
  {
    match e
    case Match(principal, secret, code) => MatchedInWindow(c, secret, code, s.clock);
    case Consume(i, _, _) => ConsumeKeepsOnce(c, s, i);
    case Cleanup(hours) => CleanupKeepsRows(c, s, hours);
    case _ =>
  }

  lemma {:induction false} RunsKeepInv(c: Setup, start: real, events: seq<Event>)
    requires Runs(c, start, events) && c.delay <= Retention(c) - 90.0
    ensures Inv(c, After(c, start, events))
  {
    if events != [] {
      RunsKeepInv(c, start, events[..|events| - 1]);
      StepKeepsInv(c, After(c, start, events[..|events| - 1]), events[|events| - 1]);
    }
  }

  // ---- a slower verifier is not protected ----

  /** "match" for timestep 1 only. */
  function OneCode(secret: string, step: int): string {
    if step == 1 then "match" else "other"
  }

  lemma RunSnoc(c: Setup, events: seq<Event>, e: Event) returns (longer: seq<Event>)
    requires Runs(c, 0.0, events) && Enabled(c, After(c, 0.0, events), e)
    ensures Runs(c, 0.0, longer) && After(c, 0.0, longer) == Step(c, After(c, 0.0, events), e)
  {
    longer := events + [e];
    assert longer[..|events|] == events;
  }

  lemma MatchesStepOne(now: real)
    requires 0.0 <= now < 90.0
    ensures FindMatchingTimestep(OneCode, "secret", "match", now) == Some(1)
  {
    TimestepRange(now);
    assert StartOf(TimestepAt(now)) < 90.0 && 0.0 < StartOf(TimestepAt(now) + 1);
  }

  /** First use at time 0, consumed at once. */
  lemma FirstUse(c: Setup) returns (events: seq<Event>)
    requires c.generate == OneCode && c.delay >= 0.0
    ensures Runs(c, 0.0, events) && After(c, 0.0, events) == State(0.0, map[Use(1, 1) := 0.0], [], [Use(1, 1)])
  {
    MatchesStepOne(0.0);
    var matched := RunSnoc(c, [], Match(1, "secret", "match"));
    assert After(c, 0.0, matched).attempts == [Attempt(Use(1, 1), 0.0)];
    events := RunSnoc(c, matched, Consume(0, true, true));
    assert After(c, 0.0, events).attempts == [];
  }

  /** A second verifier matches the same code at time m, still inside its window. */
  lemma SecondMatch(c: Setup, m: real) returns (events: seq<Event>)
    requires c.generate == OneCode && c.delay >= 0.0 && 0.0 <= m < 90.0
    ensures Runs(c, 0.0, events) && After(c, 0.0, events) == State(m, map[Use(1, 1) := 0.0], [Attempt(Use(1, 1), m)], [Use(1, 1)])
  {
    var used := FirstUse(c);
    var waited := RunSnoc(c, used, Tick(m));
    MatchesStepOne(m);
    events := RunSnoc(c, waited, Match(1, "secret", "match"));
  }

  /** It consumes after a cleanup has deleted the row. */
  lemma LateConsume(c: Setup, m: real, late: real) returns (events: seq<Event>)
    requires c.generate == OneCode && 0.0 <= m < 90.0 && m <= late && Retention(c) < late && late - m <= c.delay
    ensures Runs(c, 0.0, events) && After(c, 0.0, events).accepted == [Use(1, 1), Use(1, 1)]
  {
    var matched := SecondMatch(c, m);
    var waited := RunSnoc(c, matched, Tick(late));
    var cleaned := RunSnoc(c, waited, Cleanup(c.hours));
    assert After(c, 0.0, cleaned) == State(late, map[], [Attempt(Use(1, 1), m)], [Use(1, 1)]) by {
      assert DeleteBefore(map[Use(1, 1) := 0.0], late - Retention(c)) == map[];
    }
    events := RunSnoc(c, cleaned, Consume(0, true, true));
  }

  lemma SlowVerifierReplays(c: Setup) returns (events: seq<Event>)
    requires c.generate == OneCode && c.hours >= 1 && c.delay > Retention(c) - 90.0
    ensures Runs(c, 0.0, events) && !AcceptedOnce(After(c, 0.0, events).accepted)
  {
    var slack := if c.delay - (Retention(c) - 90.0) > 60.0 then 30.0 else (c.delay - (Retention(c) - 90.0)) / 2.0;
    assert Retention(c) >= 3600.0;
    events := LateConsume(c, 90.0 - slack, Retention(c) + slack);
    var accepted := After(c, 0.0, events).accepted;
    assert accepted[0] == accepted[1];
  }

  ghost predicate NeverReplayed(c: Setup) {
    forall start: real, events: seq<Event> :: Runs(c, start, events) ==> AcceptedOnce(After(c, start, events).accepted)
  }

  /** With a retention of at least an hour, over every interleaving of verifiers and cleanups no timestep of a principal
      is accepted twice - for every code generator - exactly when the delay between match and consume is at most
      the retention minus 90 seconds. */
  lemma NeverReplayedIffTimely(hours: nat, delay: real)
    requires hours >= 1
    ensures (forall generate: (string, int) -> string :: NeverReplayed(Setup(generate, hours, delay)))
      <==> delay <= hours as real * 3600.0 - 90.0
  {
    if delay <= hours as real * 3600.0 - 90.0 {
      forall generate: (string, int) -> string ensures NeverReplayed(Setup(generate, hours, delay)) {
        var c := Setup(generate, hours, delay);
        forall start: real, events: seq<Event> | Runs(c, start, events)
          ensures AcceptedOnce(After(c, start, events).accepted)
        {
          RunsKeepInv(c, start, events);
        }
      }
    } else {
      var events := SlowVerifierReplays(Setup(OneCode, hours, delay));
      assert !NeverReplayed(Setup(OneCode, hours, delay));
    }
  }
}
