/** The two failure limiters of the admin application, on top of the sliding-window machine:
    the TOTP limiter (an in-process list per principal over a shared table) and the login limiter
    (an in-process list per address). Each keeps, as ghost state, the machine of every key: all the
    failures since the last success, which the pruned lists forget. */
module Limiters {
  import opened SlidingWindow

  const MFA_MAX_ATTEMPTS := 5
  const MFA_WINDOW := 300.0

  /** dict.get(key, []) */
  function ListOf<K>(lists: map<K, seq<real>>, key: K): seq<real> {
    if key in lists then lists[key] else []
  }

  ghost function MachineOf<K>(machines: map<K, State>, start: real, key: K): State {
    if key in machines then machines[key] else Initial(start)
  }

  /** Every list is what its machine keeps, and every machine is in a state some run leads to. */
  ghost predicate Mirrored<K(!new)>(c: Config, machines: map<K, State>, start: real, lists: map<K, seq<real>>) {
    forall key: K :: Mirrors(c, start, MachineOf(machines, start, key), ListOf(lists, key))
  }

  ghost predicate Mirrors(c: Config, start: real, s: State, list: seq<real>) {
    Reachable(c, start, s) && s.kept == list
  }

  lemma MirroredUpdate<K(!new)>(c: Config, machines: map<K, State>, start: real, lists: map<K, seq<real>>, key: K, s: State,
      after: map<K, seq<real>>)
    requires Mirrored(c, machines, start, lists) && Mirrors(c, start, s, ListOf(after, key))
    requires forall other: K :: other != key ==> ListOf(after, other) == ListOf(lists, other)
    ensures Mirrored(c, machines[key := s], start, after)
  {
    forall other: K ensures Mirrors(c, start, MachineOf(machines[key := s], start, other), ListOf(after, other)) {
      assert other != key ==> Mirrors(c, start, MachineOf(machines, start, other), ListOf(lists, other));
    }
  }

  /** The machine at time now with its list pruned. */
  ghost function Pruned(c: Config, s: State, now: real): State {
    s.(now := now, kept := Recent(s.kept, now - c.window))
  }

  lemma PrunedReachable(c: Config, start: real, s: State, now: real)
    requires Reachable(c, start, s) && s.now <= now
    ensures Reachable(c, start, Pruned(c, s, now))
  {
    StepReachable(c, start, s, Wait(now));
    StepReachable(c, start, s.(now := now), Prune);
  }

  /** One more attempt in flight. */
  ghost function Begun(s: State): State {
    s.(inFlight := s.inFlight + [Attempt(s.now, |s.log|)])
  }

  lemma BegunReachable(c: Config, start: real, s: State, now: real)
    requires Reachable(c, start, s) && s.now <= now
    requires |Recent(s.kept, now - c.window)| < c.limit && |s.inFlight| < c.parallel
    ensures Reachable(c, start, Begun(Pruned(c, s, now)))
  {
    var p := Pruned(c, s, now);
    PrunedReachable(c, start, s, now);
    RecentOfRecent(s.kept, now - c.window, now - c.window);
    assert Recent(p.kept, p.now - c.window) == Recent(s.kept, now - c.window);
    BegunIsAdmit(c, p);
    StepReachable(c, start, p, Admit);
  }

  lemma BegunIsAdmit(c: Config, s: State)
    requires |Recent(s.kept, s.now - c.window)| < c.limit && |s.inFlight| < c.parallel
    ensures Enabled(c, s, Admit) && Step(c, s, Admit) == Begun(s)
  {
  }

  /** Attempt i has failed at time now: the failure is appended. */
  ghost function Failed(s: State, i: nat, now: real): State
    requires i < |s.inFlight|
  {
    State(now, s.kept + [now], s.log + [now], s.made + [s.inFlight[i]], Without(s.inFlight, i))
  }

  lemma FailedReachable(c: Config, start: real, s: State, i: nat, now: real)
    requires Reachable(c, start, s) && s.now <= now && i < |s.inFlight|
    ensures Reachable(c, start, Failed(s, i, now))
  {
    StepReachable(c, start, s, Wait(now));
    StepReachable(c, start, s.(now := now), Fail(i));
  }

  /** Attempt i has succeeded: nothing is left to count. */
  ghost function Succeeded(s: State, i: nat): State
    requires i < |s.inFlight|
  {
    State(s.now, [], [], [], Forget(Without(s.inFlight, i)))
  }

  lemma SucceededReachable(c: Config, start: real, s: State, i: nat)
    requires Reachable(c, start, s) && i < |s.inFlight|
    ensures Reachable(c, start, Succeeded(s, i))
  {
    StepReachable(c, start, s, Succeed(i));
  }

  /** Attempt i ends without a verdict. */
  ghost function Dropped(s: State, i: nat): State
    requires i < |s.inFlight|
  {
    s.(inFlight := Without(s.inFlight, i))
  }

  lemma DroppedReachable(c: Config, start: real, s: State, i: nat)
    requires Reachable(c, start, s) && i < |s.inFlight|
    ensures Reachable(c, start, Dropped(s, i))
  {
    StepReachable(c, start, s, Drop(i));
  }

  // ---- TOTP failures ----

  /** Row of mfa_failures. */
  datatype FailureRow = FailureRow(principal: int, failedAtMs: int)

  function CountRows(rows: seq<FailureRow>, principal: int, cutoffMs: int): nat {
    if rows == [] then 0
    else
      var last := rows[|rows| - 1];
      CountRows(rows[..|rows| - 1], principal, cutoffMs) + if last.principal == principal && last.failedAtMs > cutoffMs then 1 else 0
  }

  /** int(x): truncation toward zero. */
  function Truncate(x: real): int {
    if x >= 0.0 then x.Floor else -((-x).Floor)
  }

  /** The lock check at time now: enough recent failures in the list or the table, or no store. */
  predicate LockedBy(kept: seq<real>, rows: seq<FailureRow>, principal: int, now: real, storeUp: bool) {
    || !storeUp
    || |Recent(kept, now - MFA_WINDOW)| >= MFA_MAX_ATTEMPTS
    || CountRows(rows, principal, Truncate((now - MFA_WINDOW) * 1000.0)) >= MFA_MAX_ATTEMPTS
  }

  lemma {:induction false} RowsCounted(rows: seq<FailureRow>, principal: int, cutoffMs: int)
    ensures CountRows(rows, principal, cutoffMs) ==
      |set k: nat | k < |rows| && rows[k].principal == principal && rows[k].failedAtMs > cutoffMs|
  {
    if rows != [] {
      RowsCounted(rows[..|rows| - 1], principal, cutoffMs);
      RowsCountedSnoc(rows[..|rows| - 1], rows[|rows| - 1], principal, cutoffMs);
      assert rows == rows[..|rows| - 1] + [rows[|rows| - 1]];
    }
  }

  lemma RowsCountedSnoc(rest: seq<FailureRow>, last: FailureRow, principal: int, cutoffMs: int)
    ensures var rows := rest + [last];
      |set k: nat | k < |rows| && rows[k].principal == principal && rows[k].failedAtMs > cutoffMs| ==
      |set k: nat | k < |rest| && rest[k].principal == principal && rest[k].failedAtMs > cutoffMs|
        + if last.principal == principal && last.failedAtMs > cutoffMs then 1 else 0
  {
    var rows := rest + [last];
    var before := set k: nat | k < |rest| && rest[k].principal == principal && rest[k].failedAtMs > cutoffMs;
    assert (set k: nat | k < |rows| && rows[k].principal == principal && rows[k].failedAtMs > cutoffMs) ==
      if last.principal == principal && last.failedAtMs > cutoffMs then before + {|rest|} else before;
  }

  /** A principal is locked exactly when the store is down, or five of the times in its list, or five of its rows in the table, are
      less than 300 seconds old; the table counts in whole milliseconds. */
  lemma LockedIff(kept: seq<real>, rows: seq<FailureRow>, principal: int, now: real, storeUp: bool)
    ensures var cutoffMs := if now >= 300.0 then ((now - 300.0) * 1000.0).Floor else -((300.0 - now) * 1000.0).Floor;
      LockedBy(kept, rows, principal, now, storeUp) <==>
        || !storeUp || |set k: nat | k < |kept| && kept[k] > now - 300.0| >= 5
        || |set k: nat | k < |rows| && rows[k].principal == principal && rows[k].failedAtMs > cutoffMs| >= 5
  {
    assert -((now - 300.0) * 1000.0) == (300.0 - now) * 1000.0;
    RecentMembers(kept, now - 300.0);
    RowsCounted(rows, principal, Truncate((now - 300.0) * 1000.0));
  }

  /** Five failures that reached the table lock the principal in every process for the next 300 seconds, whatever is in its list. */
  lemma FiveRowsLock(kept: seq<real>, rows: seq<FailureRow>, principal: int, times: seq<real>, now: real)
    requires now >= 300.0 && |times| == 5 && |rows| >= 5
    requires forall k :: 0 <= k < 5 ==> now - 299.999 < times[k] && rows[k] == FailureRow(principal, Truncate(times[k] * 1000.0))
    ensures LockedBy(kept, rows, principal, now, true)
  {
    var cutoffMs := ((now - 300.0) * 1000.0).Floor;
    LockedIff(kept, rows, principal, now, true);
    forall k: nat | k < 5 ensures rows[k].failedAtMs > cutoffMs {
      assert times[k] * 1000.0 > (now - 300.0) * 1000.0 + 1.0;
    }
    FirstFive(set k: nat | k < |rows| && rows[k].principal == principal && rows[k].failedAtMs > cutoffMs);
  }

  lemma FirstFive(all: set<nat>)
    requires forall k: nat :: k < 5 ==> k in all
    ensures |all| >= 5
  {
    var first: set<nat> := {0, 1, 2, 3, 4};
    assert first <= all && |first| == 5;
    assert |all| == |first| + |all - first|;
  }

  class MfaLimiter {
    var lists: map<int, seq<real>>
    var rows: seq<FailureRow>
    ghost var machines: map<int, State>
    ghost const start: real
    ghost const parallel: nat

    ghost function Limit(): Config {
      Config(MFA_MAX_ATTEMPTS, MFA_WINDOW, parallel)
    }

    ghost function Machine(principal: int): State
      reads this
    {
      MachineOf(machines, start, principal)
    }

    ghost predicate Valid()
      reads this
    {
      parallel > 0 && Mirrored(Limit(), machines, start, lists)
    }

    constructor (ghost start: real, ghost parallel: nat)
      requires parallel > 0
      ensures Valid() && lists == map[] && rows == [] && machines == map[] && this.start == start && this.parallel == parallel
    {
      lists, rows := map[], [];
      machines := map[];
      this.start := start;
      this.parallel := parallel;
      InitialReachable(Config(MFA_MAX_ATTEMPTS, MFA_WINDOW, parallel), start);
    }

    /** The list of a principal keeps only recent failures. */
    method PruneList(principal: int, now: real)
      requires Valid() && Machine(principal).now <= now
      modifies this`lists, this`machines
      ensures Valid() && machines == old(machines)[principal := Pruned(Limit(), old(Machine(principal)), now)]
      ensures ListOf(lists, principal) == Recent(old(Machine(principal)).kept, now - MFA_WINDOW)
    {
      ghost var s := Machine(principal);
      assert Mirrors(Limit(), start, s, ListOf(lists, principal));
      PrunedReachable(Limit(), start, s, now);
      var pruned := lists;
      if principal in lists && lists[principal] != [] {
        pruned := lists[principal := Recent(lists[principal], now - MFA_WINDOW)];
      }
      MirroredUpdate(Limit(), machines, start, lists, principal, Pruned(Limit(), s, now), pruned);
      lists := pruned;
      machines := machines[principal := Pruned(Limit(), s, now)];
    }

    /** Locked when the in-process list or the table holds enough recent failures, or the store is down. */
    method IsLocked(principal: int, now: real, storeUp: bool) returns (locked: bool)
      requires Valid() && principal != 0 && Machine(principal).now <= now
      modifies this`lists, this`machines
      ensures Valid()
      ensures machines == old(machines)[principal := Pruned(Limit(), old(Machine(principal)), now)]
      ensures locked <==> LockedBy(old(Machine(principal).kept), rows, principal, now, storeUp)
    {
      PruneList(principal, now);
      if |ListOf(lists, principal)| >= MFA_MAX_ATTEMPTS {
        return true;
      }
      if !storeUp {
        return true;
      }
      return CountRows(rows, principal, Truncate((now - MFA_WINDOW) * 1000.0)) >= MFA_MAX_ATTEMPTS;
    }

    /** verify_totp_code up to its first pause: an unlocked principal has one more attempt in flight. */
    method Begin(principal: int, now: real, storeUp: bool) returns (admitted: bool)
      requires Valid() && Machine(principal).now <= now && |Machine(principal).inFlight| < parallel
      modifies this`lists, this`machines
      ensures Valid()
      ensures principal == 0 ==> !admitted && machines == old(machines)
      ensures principal != 0 ==> machines == old(machines)[principal :=
        if admitted then Begun(Pruned(Limit(), old(Machine(principal)), now)) else Pruned(Limit(), old(Machine(principal)), now)]
      ensures Machine(principal).log == old(Machine(principal)).log
      ensures |Machine(principal).inFlight| == |old(Machine(principal)).inFlight| + if admitted then 1 else 0
      ensures admitted ==> Machine(principal).now == now
      ensures admitted <==> principal != 0 && !LockedBy(old(Machine(principal).kept), rows, principal, now, storeUp)
    {
      if principal == 0 {
        return false;
      }
      ghost var s := Machine(principal);
      assert Mirrors(Limit(), start, s, ListOf(lists, principal));
      var locked := IsLocked(principal, now, storeUp);
      if locked {
        return false;
      }
      BegunReachable(Limit(), start, s, now);
      MirroredUpdate(Limit(), machines, start, lists, principal, Begun(Pruned(Limit(), s, now)), lists);
      machines := machines[principal := Begun(Pruned(Limit(), s, now))];
      return true;
    }

    /** The failure always reaches the in-process list; the table only when the store is up. */
    method RecordFailure(principal: int, ghost attempt: nat, now: real, storeUp: bool)
      requires Valid() && principal != 0 && Machine(principal).now <= now && attempt < |Machine(principal).inFlight|
      modifies this
      ensures Valid()
      ensures machines == old(machines)[principal := Pruned(Limit(), Failed(old(Machine(principal)), attempt, now), now)]
      ensures Machine(principal).log == old(Machine(principal)).log + [now]
      ensures |Machine(principal).inFlight| == |old(Machine(principal)).inFlight| - 1
      ensures rows == if storeUp then old(rows) + [FailureRow(principal, Truncate(now * 1000.0))] else old(rows)
    {
      ghost var s := Machine(principal);
      assert Mirrors(Limit(), start, s, ListOf(lists, principal));
      FailedReachable(Limit(), start, s, attempt, now);
      PrunedReachable(Limit(), start, Failed(s, attempt, now), now);
      var recorded := lists[principal := Recent(ListOf(lists, principal) + [now], now - MFA_WINDOW)];
      MirroredUpdate(Limit(), machines, start, lists, principal, Pruned(Limit(), Failed(s, attempt, now), now), recorded);
      lists := recorded;
      machines := machines[principal := Pruned(Limit(), Failed(s, attempt, now), now)];
      if storeUp {
        rows := rows + [FailureRow(principal, Truncate(now * 1000.0))];
      }
    }

    /** After a consumed code: the list is dropped even when the table cannot be cleared. */
    method Clear(principal: int, ghost attempt: nat, storeUp: bool) returns (ok: bool)
      requires Valid() && principal != 0 && attempt < |Machine(principal).inFlight|
      modifies this
      ensures Valid() && ok == storeUp
      ensures machines == old(machines)[principal := Succeeded(old(Machine(principal)), attempt)]
      ensures Machine(principal).log == [] && |Machine(principal).inFlight| == |old(Machine(principal)).inFlight| - 1
      ensures rows == if storeUp then RowsWithout(old(rows), principal) else old(rows)
    {
      ghost var s := Machine(principal);
      assert Mirrors(Limit(), start, s, ListOf(lists, principal));
      SucceededReachable(Limit(), start, s, attempt);
      var cleared := lists - {principal};
      MirroredUpdate(Limit(), machines, start, lists, principal, Succeeded(s, attempt), cleared);
      lists := cleared;
      machines := machines[principal := Succeeded(s, attempt)];
      if storeUp {
        rows := RowsWithout(rows, principal);
      }
      return storeUp;
    }

    /** An attempt that returns without recording anything. */
    ghost method Abandon(principal: int, attempt: nat)
      requires Valid() && attempt < |Machine(principal).inFlight|
      modifies this`machines
      ensures Valid() && machines == old(machines)[principal := Dropped(old(Machine(principal)), attempt)]
      ensures Machine(principal).log == old(Machine(principal)).log
      ensures |Machine(principal).inFlight| == |old(Machine(principal)).inFlight| - 1
    {
      var s := Machine(principal);
      assert Mirrors(Limit(), start, s, ListOf(lists, principal));
      DroppedReachable(Limit(), start, s, attempt);
      MirroredUpdate(Limit(), machines, start, lists, principal, Dropped(s, attempt), lists);
      machines := machines[principal := Dropped(s, attempt)];
    }

    /** With one attempt at a time, any 300 seconds since the last consumed code hold at most five failures; with
        up to parallel attempts at once, parallel - 1 more. */
    lemma FailuresBounded(principal: int)
      requires Valid()
      ensures Bounded(Machine(principal).log, MFA_WINDOW, MFA_MAX_ATTEMPTS + parallel - 1)
    {
      assert Mirrors(Limit(), start, Machine(principal), ListOf(lists, principal));
      ReachableBound(Limit(), start, Machine(principal));
    }
  }

  function RowsWithout(rows: seq<FailureRow>, principal: int): seq<FailureRow> {
    if rows == [] then []
    else
      var last := rows[|rows| - 1];
      RowsWithout(rows[..|rows| - 1], principal) + if last.principal == principal then [] else [last]
  }

  /** Exactly the rows of the other principals stay, each as often as before. */
  lemma {:induction false} RowsOfOthersStay(rows: seq<FailureRow>, principal: int)
    ensures forall r :: multiset(RowsWithout(rows, principal))[r] == if r.principal == principal then 0 else multiset(rows)[r]
  {
    if rows != [] {
      RowsOfOthersStay(rows[..|rows| - 1], principal);
      assert rows == rows[..|rows| - 1] + [rows[|rows| - 1]];
    }
  }

  // ---- logins ----

  datatype LoginOutcome = RateLimited | BadCredentials | Accepted

  class LoginLimiter {
    const maxFailures: nat
    const window: real
    var failures: map<string, seq<real>>
    ghost var machines: map<string, State>
    ghost const start: real

    /** A limit of 0 still evaluates an attempt whenever the pruned list is empty. */
    ghost function Limit(): Config {
      LoginLimit(maxFailures, window)
    }

    ghost function Machine(address: string): State
      reads this
    {
      MachineOf(machines, start, address)
    }

    ghost predicate Valid()
      reads this
    {
      && Mirrored(Limit(), machines, start, failures)
      && forall address: string :: MachineOf(machines, start, address).inFlight == []
    }

    constructor (maxFailures: nat, window: real, ghost start: real)
      requires window > 0.0
      ensures Valid() && failures == map[] && machines == map[]
      ensures this.maxFailures == maxFailures && this.window == window && this.start == start
    {
      this.maxFailures, this.window := maxFailures, window;
      failures := map[];
      machines := map[];
      this.start := start;
      InitialReachable(LoginLimit(maxFailures, window), start);
    }

    /** One login attempt: prune, reject, or evaluate the credentials and record or clear. */
    method Login(address: string, now: real, correct: bool) returns (outcome: LoginOutcome)
      requires Valid() && Machine(address).now <= now
      modifies this
      ensures Valid()
      ensures outcome == LoginResult(maxFailures, |Recent(ListOf(old(failures), address), now - window)|, correct)
      ensures var recent := Recent(ListOf(old(failures), address), now - window);
        && (outcome == RateLimited <==> recent != [] && |recent| >= maxFailures)
        && (outcome == Accepted <==> correct && (recent == [] || |recent| < maxFailures))
        && ListOf(failures, address) ==
          (match outcome case RateLimited => recent case BadCredentials => recent + [now] case Accepted => [])
      ensures machines == old(machines)[address := LoginMachine(Limit(), old(Machine(address)), now, outcome)]
      ensures forall other :: other != address ==> ListOf(failures, other) == ListOf(old(failures), other)
    {
      ghost var s := Machine(address);
      assert Mirrors(Limit(), start, s, ListOf(failures, address));
      var recent := Recent(ListOf(failures, address), now - window);
      var after := failures[address := recent];
      if recent == [] {
        after := after - {address};
        outcome := if correct then Accepted else BadCredentials;
      } else if |recent| >= maxFailures {
        outcome := RateLimited;
      } else {
        outcome := if correct then Accepted else BadCredentials;
      }
      if outcome.BadCredentials? {
        after := after[address := ListOf(after, address) + [now]];
      } else if outcome.Accepted? {
        after := after - {address};
      }
      LoginReachable(Limit(), start, s, now, outcome);
      MirroredUpdate(Limit(), machines, start, failures, address, LoginMachine(Limit(), s, now, outcome), after);
      failures := after;
      assert MachineOf(machines, start, address).inFlight == [] && Forget([]) == [];
      machines := machines[address := LoginMachine(Limit(), s, now, outcome)];
    }

    /** Any window since the last successful login from an address holds at most max(1, limit) evaluated failures. */
    lemma FailuresBounded(address: string)
      requires Valid()
      ensures Bounded(Machine(address).log, window, if maxFailures == 0 then 1 else maxFailures)
    {
      assert Mirrors(Limit(), start, Machine(address), ListOf(failures, address));
      ReachableBound(Limit(), start, Machine(address));
    }
  }

  function LoginResult(maxFailures: nat, recent: nat, correct: bool): LoginOutcome {
    if recent != 0 && recent >= maxFailures then RateLimited else if correct then Accepted else BadCredentials
  }

  /** Attempts are sequential: a login is admitted and settled at one instant. */
  ghost function LoginMachine(c: Config, s: State, now: real, outcome: LoginOutcome): State {
    var pruned := Pruned(c, s, now);
    match outcome
    case RateLimited => pruned
    case BadCredentials => pruned.(kept := pruned.kept + [now], log := pruned.log + [now],
      made := pruned.made + [Attempt(now, |pruned.log|)])
    case Accepted => State(now, [], [], [], Forget(s.inFlight))
  }

  lemma LoginReachable(c: Config, start: real, s: State, now: real, outcome: LoginOutcome)
    requires Reachable(c, start, s) && s.now <= now && s.inFlight == [] && c.parallel > 0
    requires !outcome.RateLimited? ==> |Recent(s.kept, now - c.window)| < c.limit
    ensures Reachable(c, start, LoginMachine(c, s, now, outcome))
  {
    PrunedReachable(c, start, s, now);
    if !outcome.RateLimited? {
      BegunReachable(c, start, s, now);
      var begun := Begun(Pruned(c, s, now));
      if outcome.Accepted? {
        SucceededReachable(c, start, begun, 0);
        assert Without(begun.inFlight, 0) == [];
      } else {
        FailedReachable(c, start, begun, 0, now);
        assert Without(begun.inFlight, 0) == [];
      }
    }
  }

  // ---- runs of logins ----

  function LoginLimit(maxFailures: nat, window: real): Config {
    Config(if maxFailures == 0 then 1 else maxFailures, window, 1)
  }

  /** One login from an address: when, and whether the credentials are correct. */
  datatype Try = Try(now: real, correct: bool)

  /** The state of an address after the tries in turn, from a state without failures. */
  ghost function AfterTries(maxFailures: nat, window: real, start: real, tries: seq<Try>): State {
    if tries == [] then Initial(start)
    else Tried(maxFailures, window, AfterTries(maxFailures, window, start, tries[..|tries| - 1]), tries[|tries| - 1])
  }

  ghost function Tried(maxFailures: nat, window: real, s: State, t: Try): State {
    LoginMachine(LoginLimit(maxFailures, window), s, t.now, LoginResult(maxFailures, |Recent(s.kept, t.now - window)|, t.correct))
  }

  function LastTime(start: real, tries: seq<Try>): real {
    if tries == [] then start else tries[|tries| - 1].now
  }

  predicate InOrder(start: real, tries: seq<Try>) {
    tries == [] || (InOrder(start, tries[..|tries| - 1]) && LastTime(start, tries[..|tries| - 1]) <= tries[|tries| - 1].now)
  }

  lemma TriedReachable(maxFailures: nat, window: real, start: real, s: State, t: Try)
    requires window > 0.0 && Reachable(LoginLimit(maxFailures, window), start, s) && s.inFlight == [] && s.now <= t.now
    ensures var s' := Tried(maxFailures, window, s, t);
      Reachable(LoginLimit(maxFailures, window), start, s') && s'.inFlight == [] && s'.now == t.now
  {
    LoginReachable(LoginLimit(maxFailures, window), start, s, t.now,
      LoginResult(maxFailures, |Recent(s.kept, t.now - window)|, t.correct));
  }

  lemma {:induction false} TriesReachable(maxFailures: nat, window: real, start: real, tries: seq<Try>)
    requires window > 0.0 && InOrder(start, tries)
    ensures var s := AfterTries(maxFailures, window, start, tries);
      && Reachable(LoginLimit(maxFailures, window), start, s) && s.inFlight == []
      && s.now == LastTime(start, tries)
  {
    if tries == [] {
      InitialReachable(LoginLimit(maxFailures, window), start);
    } else {
      var front, t := tries[..|tries| - 1], tries[|tries| - 1];
      TriesReachable(maxFailures, window, start, front);
      TriedReachable(maxFailures, window, start, AfterTries(maxFailures, window, start, front), t);
    }
  }

  lemma KeptNotLater(maxFailures: nat, window: real, start: real, tries: seq<Try>)
    requires window > 0.0 && InOrder(start, tries)
    ensures forall x :: x in AfterTries(maxFailures, window, start, tries).kept ==> x <= LastTime(start, tries)
  {
    if tries != [] {
      var front, t := tries[..|tries| - 1], tries[|tries| - 1];
      KeptNotLater(maxFailures, window, start, front);
      RecentMembers(AfterTries(maxFailures, window, start, front).kept, t.now - window);
    }
  }

  /** Once a window has passed no failure counts any more. */
  lemma WindowPassed(maxFailures: nat, window: real, start: real, tries: seq<Try>, now: real)
    requires window > 0.0 && InOrder(start, tries) && now >= LastTime(start, tries) + window
    ensures Recent(AfterTries(maxFailures, window, start, tries).kept, now - window) == []
  {
    var kept := AfterTries(maxFailures, window, start, tries).kept;
    KeptNotLater(maxFailures, window, start, tries);
    forall k | 0 <= k < |kept| ensures kept[k] <= now - window {
      assert kept[k] in kept;
    }
    NoneRecent(kept, now - window);
  }

  /** After any logins, once a window has passed the right credentials are accepted again, and nothing is remembered against the
      address. */
  lemma LockoutEnds(maxFailures: nat, window: real, start: real, tries: seq<Try>, now: real)
    requires window > 0.0 && InOrder(start, tries) && now >= LastTime(start, tries) + window
    ensures LoginResult(maxFailures, |Recent(AfterTries(maxFailures, window, start, tries).kept, now - window)|, true) == Accepted
    ensures AfterTries(maxFailures, window, start, tries + [Try(now, true)]).kept == []
  {
    WindowPassed(maxFailures, window, start, tries, now);
    AfterOneMore(maxFailures, window, start, tries, Try(now, true));
    AcceptedForgets(maxFailures, window, AfterTries(maxFailures, window, start, tries), now);
  }

  lemma AcceptedForgets(maxFailures: nat, window: real, s: State, now: real)
    requires Recent(s.kept, now - window) == []
    ensures Tried(maxFailures, window, s, Try(now, true)).kept == []
  {
  }

  lemma AfterOneMore(maxFailures: nat, window: real, start: real, tries: seq<Try>, t: Try)
    ensures AfterTries(maxFailures, window, start, tries + [t]) ==
      Tried(maxFailures, window, AfterTries(maxFailures, window, start, tries), t)
  {
    assert (tries + [t])[..|tries|] == tries;
  }

  lemma {:induction false} NoneRecent(times: seq<real>, cutoff: real)
    requires forall k :: 0 <= k < |times| ==> times[k] <= cutoff
    ensures Recent(times, cutoff) == []
  {
    if times != [] {
      NoneRecent(times[..|times| - 1], cutoff);
    }
  }

  /** The configured limit bounds every run exactly when it is at least 1. */
  lemma ConfiguredLimitHoldsIff(maxFailures: nat, window: real)
    requires window > 0.0
    ensures (forall start: real, tries: seq<Try> :: InOrder(start, tries) ==>
      Bounded(AfterTries(maxFailures, window, start, tries).log, window, maxFailures)) <==> maxFailures >= 1
  {
    if maxFailures >= 1 {
      forall start: real, tries: seq<Try> | InOrder(start, tries)
        ensures Bounded(AfterTries(maxFailures, window, start, tries).log, window, maxFailures)
      {
        TriesReachable(maxFailures, window, start, tries);
        ReachableBound(LoginLimit(maxFailures, window), start, AfterTries(maxFailures, window, start, tries));
      }
    } else {
      var tries := LimitZeroFails(window);
      assert !Bounded(AfterTries(0, window, 0.0, tries).log, window, 0);
    }
  }

  /** With a limit of 0 a single login with bad credentials is evaluated and fails. */
  lemma LimitZeroFails(window: real) returns (tries: seq<Try>)
    requires window > 0.0
    ensures tries == [Try(0.0, false)] && InOrder(0.0, tries)
    ensures var log := AfterTries(0, window, 0.0, tries).log; log == [0.0] && !Bounded(log, window, 0)
  {
    tries := [Try(0.0, false)];
    assert tries[..0] == [] && AfterTries(0, window, 0.0, []) == Initial(0.0);
    OneBadTry(window);
    OneFailureCounts(window);
    assert CountWithin([0.0], 0.0, window) == 1;
  }

  lemma OneBadTry(window: real)
    ensures Tried(0, window, Initial(0.0), Try(0.0, false)).log == [0.0]
  {
    assert Recent([], 0.0 - window) == [];
  }

  lemma OneFailureCounts(window: real)
    requires window > 0.0
    ensures CountIn([0.0], 0.0, 0.0 + window) == 1
  {
    var log := [0.0];
    assert log[..0] == [] && log[|log| - 1] == 0.0;
    assert CountIn([], 0.0, 0.0 + window) == 0;
  }
}
