/** verify_totp_code: lock check, match, consume, and the failure records, composed. */
module TotpVerification {
  import Totp
  import opened Limiters

  /** How a verification ended. Only Accepted returns true. */
  datatype Verdict = Refused | Broken(failedAt: real) | NoMatch(failedAt: real) | Replayed(step: int, failedAt: real)
      | Uncleared(step: int) | Accepted(step: int)

  /** Reading the secret. It is "" when none is configured or the store is closed. */
  datatype Lookup = Raised | Found(secret: string)

  /** The clock at the lock check, the match, the consumption and the failure record. */
  datatype Times = Times(lockedAt: real, matchedAt: real, consumedAt: real, failedAt: real)

  /** Whether the store works at each of its uses. */
  datatype Stores = Stores(lock: bool, consume: bool, record: bool, clear: bool)

  /** The failures counted after a verdict: one more for a code that does not match or was used and for an exception,
      none after a code that was consumed. */
  function FailuresAfter(log: seq<real>, v: Verdict): seq<real> {
    match v
    case Refused => log
    case Broken(at) => log + [at]
    case NoMatch(at) => log + [at]
    case Replayed(_, at) => log + [at]
    case Uncleared(_) => []
    case Accepted(_) => []
  }

  function UsedAfter(used: map<Totp.Use, real>, principal: int, v: Verdict, at: real): map<Totp.Use, real> {
    match v
    case Uncleared(step) => used[Totp.Use(principal, step) := at]
    case Accepted(step) => used[Totp.Use(principal, step) := at]
    case _ => used
  }

  /** What each verdict leaves: a refusal nothing, a failure one more failure, a consumed code its row and no failures, cleared or not. */
  lemma VerdictInFields(log: seq<real>, used: map<Totp.Use, real>, principal: int, v: Verdict, at: real)
    ensures v.Refused? ==> FailuresAfter(log, v) == log && UsedAfter(used, principal, v, at) == used
    ensures v.Broken? || v.NoMatch? || v.Replayed? ==>
      FailuresAfter(log, v) == log + [v.failedAt] && UsedAfter(used, principal, v, at) == used
    ensures v.Uncleared? || v.Accepted? ==>
      FailuresAfter(log, v) == [] && UsedAfter(used, principal, v, at) == used[Totp.Use(principal, v.step) := at]
  {
  }

  /** What a verdict says about the code and the used timesteps. */
  ghost predicate Justified(v: Verdict, generate: (string, int) -> string, lookup: Lookup, principal: int, code: string,
                            t: Times, up: Stores, used: map<Totp.Use, real>)
  {
    if lookup.Raised? then v == Refused || v == Broken(t.failedAt)
    else if lookup.secret == "" then v == Refused
    else
      var matched := Totp.FindMatchingTimestep(generate, lookup.secret, code, t.matchedAt);
      match v
      case Refused => true
      case Broken(_) => false
      case NoMatch(at) => matched.None? && at == t.failedAt
      case Replayed(step, at) => matched == Totp.Some(step) && at == t.failedAt && (!up.consume || Totp.Use(principal, step) in used)
      case Uncleared(step) => matched == Totp.Some(step) && up.consume && Totp.Use(principal, step) !in used && !up.clear
      case Accepted(step) => matched == Totp.Some(step) && up.consume && Totp.Use(principal, step) !in used && up.clear
  }

  /** The part after the lock check, for an attempt in flight. */
  method Evaluate(limiter: MfaLimiter, codes: Totp.UsedCodes, generate: (string, int) -> string, secret: string,
                  principal: int, code: string, t: Times, up: Stores, ghost attempt: nat) returns (ok: bool, ghost v: Verdict)
    requires secret != ""
    requires limiter.Valid() && principal != 0 && attempt < |limiter.Machine(principal).inFlight|
    requires limiter.Machine(principal).now <= t.failedAt
    modifies limiter, codes
    ensures limiter.Valid() && (ok <==> v.Accepted?) && !v.Refused?
    ensures limiter.Machine(principal).log == FailuresAfter(old(limiter.Machine(principal).log), v)
    ensures |limiter.Machine(principal).inFlight| == |old(limiter.Machine(principal).inFlight)| - 1
    ensures codes.used == UsedAfter(old(codes.used), principal, v, t.consumedAt)
    ensures Justified(v, generate, Found(secret), principal, code, t, up, old(codes.used))
  {
    var matched := Totp.FindMatchingTimestep(generate, secret, code, t.matchedAt);
    if matched.None? {
      limiter.RecordFailure(principal, attempt, t.failedAt, up.record);
      return false, NoMatch(t.failedAt);
    }
    var consumed := codes.ConsumeTimestep(principal, matched.value, t.consumedAt, up.consume);
    if !consumed {
      limiter.RecordFailure(principal, attempt, t.failedAt, up.record);
      return false, Replayed(matched.value, t.failedAt);
    }
    var cleared := limiter.Clear(principal, attempt, up.clear);
    if !cleared {
      return false, Uncleared(matched.value);
    }
    return true, Verdict.Accepted(matched.value);
  }

  /** An attempt in flight: the secret is read, then the code is evaluated; an exception counts as a failure. */
  method Proceed(limiter: MfaLimiter, codes: Totp.UsedCodes, generate: (string, int) -> string, lookup: Lookup,
                 principal: int, code: string, t: Times, up: Stores, ghost attempt: nat) returns (ok: bool, ghost v: Verdict)
    requires limiter.Valid() && principal != 0 && attempt < |limiter.Machine(principal).inFlight|
    requires limiter.Machine(principal).now <= t.failedAt
    modifies limiter, codes
    ensures limiter.Valid() && (ok <==> v.Accepted?) && (v.Refused? <==> lookup == Found(""))
    ensures limiter.Machine(principal).log == FailuresAfter(old(limiter.Machine(principal).log), v)
    ensures |limiter.Machine(principal).inFlight| == |old(limiter.Machine(principal).inFlight)| - 1
    ensures codes.used == UsedAfter(old(codes.used), principal, v, t.consumedAt)
    ensures Justified(v, generate, lookup, principal, code, t, up, old(codes.used))
  {
    match lookup
    case Raised =>
      limiter.RecordFailure(principal, attempt, t.failedAt, up.record);
      return false, Broken(t.failedAt);
    case Found(secret) =>
      if secret == "" {
        limiter.Abandon(principal, attempt);
        return false, Refused;
      }
      ok, v := Evaluate(limiter, codes, generate, secret, principal, code, t, up, attempt);
  }

  /** A matched timestep is accepted only on its first use; every evaluated failure, and every exception after the lock
      check, is counted exactly once; nothing is evaluated while the principal is locked. */
  method VerifyTotpCode(limiter: MfaLimiter, codes: Totp.UsedCodes, generate: (string, int) -> string, lookup: Lookup,
                        principal: int, code: string, t: Times, up: Stores) returns (ok: bool, ghost v: Verdict)
    requires limiter.Valid() && |limiter.Machine(principal).inFlight| < limiter.parallel
    requires limiter.Machine(principal).now <= t.lockedAt <= t.matchedAt <= t.consumedAt <= t.failedAt
    modifies limiter, codes
    ensures limiter.Valid() && (ok <==> v.Accepted?)
    ensures limiter.Machine(principal).log == FailuresAfter(old(limiter.Machine(principal).log), v)
    ensures |limiter.Machine(principal).inFlight| == |old(limiter.Machine(principal).inFlight)|
    ensures codes.used == UsedAfter(old(codes.used), principal, v, t.consumedAt)
    ensures Justified(v, generate, lookup, principal, code, t, up, old(codes.used))
    ensures v == Refused <==> (principal == 0 || code == "" || lookup == Found("")
      || LockedBy(old(limiter.Machine(principal).kept), old(limiter.rows), principal, t.lockedAt, up.lock))
  {
    if principal == 0 || code == "" {
      return false, Refused;
    }
    ghost var attempt := |limiter.Machine(principal).inFlight|;
    var admitted := limiter.Begin(principal, t.lockedAt, up.lock);
    if !admitted {
      return false, Refused;
    }
    ok, v := Proceed(limiter, codes, generate, lookup, principal, code, t, up, attempt);
  }
}
