/** Sliding-window limiting over a pruned list of failure times. An attempt is admitted when fewer than
    limit failures are younger than window; admitted attempts are evaluated and may record a failure later,
    several at a time. One theorem bounds the failures in every interval of length window. */
module SlidingWindow {

  /** The times later than cutoff: [ts for ts in list if ts > cutoff]. */
  function Recent(times: seq<real>, cutoff: real): (r: seq<real>) {
    if times == [] then []
    else Recent(times[..|times| - 1], cutoff) + if times[|times| - 1] > cutoff then [times[|times| - 1]] else []
  }

  /** The failures in [from, to). */
  function CountIn(times: seq<real>, from: real, to: real): nat {
    if times == [] then 0
    else CountIn(times[..|times| - 1], from, to) + if from <= times[|times| - 1] < to then 1 else 0
  }

  ghost predicate Sorted(times: seq<real>) {
    forall i, j :: 0 <= i <= j < |times| ==> times[i] <= times[j]
  }

  /** Any bound + 1 consecutive failures span at least the window. */
  ghost predicate Spread(times: seq<real>, window: real, bound: nat) {
    forall i, j :: 0 <= i && j == i + bound && j < |times| ==> times[i] + window <= times[j]
  }

  /** Every interval of the window's length holds at most bound failures. */
  ghost predicate Bounded(times: seq<real>, window: real, bound: nat) {
    forall from: real :: CountWithin(times, from, window) <= bound
  }

  /** The failures in [from, from + window). */
  function CountWithin(times: seq<real>, from: real, window: real): nat {
    CountIn(times, from, from + window)
  }

  lemma {:induction false} CountInside(times: seq<real>, from: real, to: real, lo: nat, hi: nat)
    requires lo <= hi
    requires forall i :: 0 <= i < |times| && from <= times[i] < to ==> lo <= i < hi
    ensures CountIn(times, from, to) <= if |times| <= lo then 0 else if |times| <= hi then |times| - lo else hi - lo
  {
    if times != [] {
      CountInside(times[..|times| - 1], from, to, lo, hi);
    }
  }

  /** The position of the first failure at or after a time. */
  function FirstFrom(times: seq<real>, from: real): (i: nat)
    ensures i <= |times| && (forall j :: 0 <= j < i ==> times[j] < from) && (i < |times| ==> from <= times[i])
  {
    if times == [] || from <= times[0] then 0 else 1 + FirstFrom(times[1..], from)
  }

  lemma InsideBlock(times: seq<real>, window: real, bound: nat, from: real, k: nat)
    requires Sorted(times) && Spread(times, window, bound) && k < |times| && from <= times[k] < from + window
    ensures FirstFrom(times, from) <= k < FirstFrom(times, from) + bound
  {
    var i := FirstFrom(times, from);
    var j := i + bound;
    assert j < |times| ==> times[i] + window <= times[j];
  }

  /** Spread failures are bounded in every window. */
  lemma SpreadBounds(times: seq<real>, window: real, bound: nat)
    requires Sorted(times) && Spread(times, window, bound)
    ensures Bounded(times, window, bound)
  {
    forall from: real
      ensures CountWithin(times, from, window) <= bound
    {
      var i := FirstFrom(times, from);
      forall k | 0 <= k < |times| && from <= times[k] < from + window
        ensures i <= k < i + bound
      {
        InsideBlock(times, window, bound, from, k);
      }
      CountInside(times, from, from + window, i, i + bound);
    }
  }

  /** The later times and no others, each as often as it is listed. */
  lemma {:induction false} RecentMembers(times: seq<real>, cutoff: real)
    ensures forall x :: x in Recent(times, cutoff) <==> x in times && x > cutoff
    ensures |Recent(times, cutoff)| == |set k: nat | k < |times| && times[k] > cutoff|
  {
    if times != [] {
      var rest, n := times[..|times| - 1], |times| - 1;
      RecentMembers(rest, cutoff);
      assert times == rest + [times[n]];
      var before := set k: nat | k < |rest| && rest[k] > cutoff;
      assert (set k: nat | k < |times| && times[k] > cutoff) == if times[n] > cutoff then before + {n} else before;
    }
  }

  // ---- pruning forgets nothing that still matters ----

  lemma {:induction false} RecentOfRecent(times: seq<real>, early: real, late: real)
    requires early <= late
    ensures Recent(Recent(times, early), late) == Recent(times, late)
  {
    if times != [] {
      var rest, last := times[..|times| - 1], times[|times| - 1];
      RecentOfRecent(rest, early, late);
      if last > early {
        assert Recent(times, early)[..|Recent(times, early)| - 1] == Recent(rest, early);
      } else {
        assert Recent(times, early) == Recent(rest, early);
      }
    }
  }

  lemma RecentSnoc(times: seq<real>, x: real, cutoff: real)
    ensures Recent(times + [x], cutoff) == Recent(times, cutoff) + if x > cutoff then [x] else []
  {
    assert (times + [x])[..|times|] == times;
  }

  /** Fewer than limit recent failures: the failure limit places from the end is old. */
  lemma {:induction false} FewRecent(times: seq<real>, cutoff: real, limit: nat)
    requires Sorted(times) && 0 < limit <= |times| && |Recent(times, cutoff)| < limit
    ensures times[|times| - limit] <= cutoff
  {
    var last := times[|times| - 1];
    if last > cutoff {
      assert limit != 1;
      FewRecent(times[..|times| - 1], cutoff, limit - 1);
    }
  }

  // ---- the machine ----

  /** checkedAt: when the limiter admitted it; seen: failures recorded by then. */
  datatype Attempt = Attempt(checkedAt: real, seen: nat)

  /** kept is the pruned list; log is every failure since the last success, with the attempt that made it. */
  datatype State = State(now: real, kept: seq<real>, log: seq<real>, made: seq<Attempt>, inFlight: seq<Attempt>)

  /** parallel: how many attempts may be in flight at once. */
  datatype Config = Config(limit: nat, window: real, parallel: nat)

  datatype Event = Wait(to: real) | Prune | Admit | Fail(i: nat) | Drop(i: nat) | Succeed(i: nat)

  function Without(attempts: seq<Attempt>, i: nat): seq<Attempt>
    requires i < |attempts|
  {
    attempts[..i] + attempts[i + 1..]
  }

  function Forget(attempts: seq<Attempt>): (r: seq<Attempt>)
    ensures |r| == |attempts|
  {
    seq(|attempts|, i requires 0 <= i < |attempts| => attempts[i].(seen := 0))
  }

  predicate Enabled(c: Config, s: State, e: Event) {
    match e
    case Wait(to) => s.now <= to
    case Prune => true
    case Admit => |Recent(s.kept, s.now - c.window)| < c.limit && |s.inFlight| < c.parallel
    case Fail(i) => i < |s.inFlight|
    case Drop(i) => i < |s.inFlight|
    case Succeed(i) => i < |s.inFlight|
  }

  function Step(c: Config, s: State, e: Event): State
    requires Enabled(c, s, e)
  {
    match e
    case Wait(to) => s.(now := to)
    case Prune => s.(kept := Recent(s.kept, s.now - c.window))
    case Admit => s.(inFlight := s.inFlight + [Attempt(s.now, |s.log|)])
    case Fail(i) => s.(kept := s.kept + [s.now], log := s.log + [s.now], made := s.made + [s.inFlight[i]],
        inFlight := Without(s.inFlight, i))
    case Drop(i) => s.(inFlight := Without(s.inFlight, i))
    case Succeed(i) => State(s.now, [], [], [], Forget(Without(s.inFlight, i)))
  }

  function Initial(now: real): State {
    State(now, [], [], [], [])
  }

  /** Attempts that had seen at most n failures. */
  function CountSeen(attempts: seq<Attempt>, n: nat): nat {
    if attempts == [] then 0
    else CountSeen(attempts[..|attempts| - 1], n) + if attempts[|attempts| - 1].seen <= n then 1 else 0
  }

  /** The attempt was admitted with the failures it had seen: all but limit - 1 of them were old. */
  ghost predicate Admitted(c: Config, log: seq<real>, a: Attempt) {
    a.seen <= |log| && (0 < c.limit <= a.seen ==> log[a.seen - c.limit] + c.window <= a.checkedAt)
  }

  ghost predicate KeptSince(s: State, cutoff: real) {
    s.kept == Recent(s.log, cutoff)
  }

  ghost predicate ListInv(c: Config, s: State) {
    && Sorted(s.log) && (forall i :: 0 <= i < |s.log| ==> s.log[i] <= s.now)
    && (exists cutoff :: cutoff <= s.now - c.window && KeptSince(s, cutoff))
  }

  ghost predicate AttemptsInv(c: Config, s: State) {
    && |s.made| == |s.log| && |s.inFlight| <= c.parallel
    && (forall i :: 0 <= i < |s.made| ==> Admitted(c, s.log, s.made[i]) && s.made[i].checkedAt <= s.log[i])
    && (forall i :: 0 <= i < |s.inFlight| ==> Admitted(c, s.log, s.inFlight[i]) && s.inFlight[i].checkedAt <= s.now)
  }

  /** The attempts that had seen at most n failures and were still in flight when failure n came. */
  function Late(s: State, n: nat): nat
    requires n <= |s.made|
  {
    CountSeen(s.made[n..], n) + CountSeen(s.inFlight, n)
  }

  ghost predicate LateInv(c: Config, s: State) {
    forall n :: 0 <= n <= |s.made| ==> Late(s, n) <= c.parallel
  }

  ghost predicate Inv(c: Config, s: State) {
    ListInv(c, s) && AttemptsInv(c, s) && LateInv(c, s)
  }

  lemma RecentStays(c: Config, s: State, cutoff: real)
    requires ListInv(c, s) && s.now - c.window <= cutoff
    ensures Recent(s.kept, cutoff) == Recent(s.log, cutoff)
  {
    var pruned :| pruned <= s.now - c.window && KeptSince(s, pruned);
    RecentOfRecent(s.log, pruned, cutoff);
  }

  lemma FailKeepsKept(c: Config, s: State, i: nat, cutoff: real)
    requires KeptSince(s, cutoff) && cutoff < s.now && i < |s.inFlight|
    ensures KeptSince(Step(c, s, Fail(i)), cutoff)
  {
    RecentSnoc(s.log, s.now, cutoff);
  }

  lemma PruneKeepsKept(c: Config, s: State)
    requires ListInv(c, s)
    ensures KeptSince(Step(c, s, Prune), s.now - c.window)
  {
    RecentStays(c, s, s.now - c.window);
  }

  lemma OtherKeepsKept(c: Config, s: State, e: Event, cutoff: real)
    requires ListInv(c, s) && Enabled(c, s, e) && !e.Prune? && !e.Fail? && cutoff <= s.now - c.window && KeptSince(s, cutoff)
    ensures ListInv(c, Step(c, s, e))
  {
    assert KeptSince(Step(c, s, e), cutoff);
  }

  lemma StepKeepsList(c: Config, s: State, e: Event)
    requires ListInv(c, s) && Enabled(c, s, e) && c.window > 0.0
    ensures ListInv(c, Step(c, s, e))
  {
    var cutoff :| cutoff <= s.now - c.window && KeptSince(s, cutoff);
    match e
    case Prune => PruneKeepsKept(c, s);
    case Fail(i) => FailKeepsKept(c, s, i, cutoff);
    case _ => OtherKeepsKept(c, s, e, cutoff);
  }

  lemma AdmitIsAdmitted(c: Config, s: State)
    requires ListInv(c, s) && Enabled(c, s, Admit) && c.limit > 0
    ensures Admitted(c, s.log, Attempt(s.now, |s.log|))
  {
    RecentStays(c, s, s.now - c.window);
    if c.limit <= |s.log| {
      FewRecent(s.log, s.now - c.window, c.limit);
    }
  }

  lemma AdmittedStays(c: Config, log: seq<real>, a: Attempt, more: seq<real>)
    requires Admitted(c, log, a)
    ensures Admitted(c, log + more, a)
  {
  }

  lemma FailKeepsAttempts(c: Config, s: State, i: nat)
    requires ListInv(c, s) && AttemptsInv(c, s) && i < |s.inFlight|
    ensures AttemptsInv(c, Step(c, s, Fail(i)))
  {
    forall a: Attempt ensures Admitted(c, s.log, a) ==> Admitted(c, s.log + [s.now], a) {
      if Admitted(c, s.log, a) {
        AdmittedStays(c, s.log, a, [s.now]);
      }
    }
  }

  lemma StepKeepsAttempts(c: Config, s: State, e: Event)
    requires ListInv(c, s) && AttemptsInv(c, s) && Enabled(c, s, e) && c.limit > 0
    ensures AttemptsInv(c, Step(c, s, e))
  {
    match e
    case Admit => AdmitIsAdmitted(c, s);
    case Fail(i) => FailKeepsAttempts(c, s, i);
    case _ =>
  }

  lemma {:induction false} CountSeenBounds(attempts: seq<Attempt>, n: nat)
    ensures CountSeen(attempts, n) <= |attempts|
  {
    if attempts != [] {
      CountSeenBounds(attempts[..|attempts| - 1], n);
    }
  }

  lemma CountSeenSnoc(attempts: seq<Attempt>, a: Attempt, n: nat)
    ensures CountSeen(attempts + [a], n) == CountSeen(attempts, n) + if a.seen <= n then 1 else 0
  {
    assert (attempts + [a])[..|attempts|] == attempts;
  }

  lemma {:induction false} CountSeenWithout(attempts: seq<Attempt>, i: nat, n: nat)
    requires i < |attempts|
    ensures CountSeen(attempts, n) == CountSeen(Without(attempts, i), n) + if attempts[i].seen <= n then 1 else 0
    decreases |attempts|
  {
    var rest, last := attempts[..|attempts| - 1], attempts[|attempts| - 1];
    if i == |rest| {
      assert Without(attempts, i) == rest;
    } else {
      CountSeenWithout(rest, i, n);
      assert Without(attempts, i) == Without(rest, i) + [last];
      CountSeenSnoc(Without(rest, i), last, n);
    }
  }

  /** The first m attempts had all seen at most n failures. */
  lemma {:induction false} CountSeenAll(attempts: seq<Attempt>, m: nat, n: nat)
    requires m <= |attempts| && forall i :: 0 <= i < m ==> attempts[i].seen <= n
    ensures CountSeen(attempts, n) >= m
  {
    if 0 < m {
      var rest := attempts[..|attempts| - 1];
      CountSeenAll(rest, if m < |attempts| then m else m - 1, n);
    }
  }

  lemma StepKeepsLate(c: Config, s: State, e: Event)
    requires AttemptsInv(c, s) && LateInv(c, s) && Enabled(c, s, e)
    ensures LateInv(c, Step(c, s, e))
  {
    var s' := Step(c, s, e);
    forall n | 0 <= n <= |s'.made|
      ensures Late(s', n) <= c.parallel
    {
      CountSeenBounds(s'.inFlight, n);
      if n == |s'.made| {
        assert s'.made[n..] == [];
      } else {
        assert Late(s, n) <= c.parallel;
        match e
        case Admit => CountSeenSnoc(s.inFlight, Attempt(s.now, |s.log|), n);
        case Fail(i) =>
          assert s'.made[n..] == s.made[n..] + [s.inFlight[i]];
          CountSeenSnoc(s.made[n..], s.inFlight[i], n);
          CountSeenWithout(s.inFlight, i, n);
        case Drop(i) => CountSeenWithout(s.inFlight, i, n);
        case _ =>
      }
    }
  }

  lemma StepKeepsInv(c: Config, s: State, e: Event)
    requires Inv(c, s) && Enabled(c, s, e) && c.limit > 0 && c.window > 0.0
    ensures Inv(c, Step(c, s, e))
  {
    StepKeepsList(c, s, e);
    StepKeepsAttempts(c, s, e);
    StepKeepsLate(c, s, e);
  }

  lemma InitialInv(c: Config, now: real)
    ensures Inv(c, Initial(now))
  {
    assert KeptSince(Initial(now), now - c.window);
  }

  /** Runs: After(c, s, events) is the state they lead to, when each is enabled where it happens. */
  predicate Runs(c: Config, s: State, events: seq<Event>) {
    events == [] || (Runs(c, s, events[..|events| - 1]) && Enabled(c, After(c, s, events[..|events| - 1]), events[|events| - 1]))
  }

  function After(c: Config, s: State, events: seq<Event>): State {
    if events == [] then s
    else
      var before := After(c, s, events[..|events| - 1]);
      if Enabled(c, before, events[|events| - 1]) then Step(c, before, events[|events| - 1]) else before
  }

  lemma {:induction false} RunsKeepInv(c: Config, now: real, events: seq<Event>)
    requires c.limit > 0 && c.window > 0.0 && Runs(c, Initial(now), events)
    ensures Inv(c, After(c, Initial(now), events))
  {
    if events == [] {
      InitialInv(c, now);
    } else {
      RunsKeepInv(c, now, events[..|events| - 1]);
      StepKeepsInv(c, After(c, Initial(now), events[..|events| - 1]), events[|events| - 1]);
    }
  }

  lemma SpreadInState(c: Config, s: State)
    requires c.limit > 0 && c.parallel > 0 && Inv(c, s)
    ensures Spread(s.log, c.window, c.limit + c.parallel - 1)
  {
    forall i, j | 0 <= i && j == i + (c.limit + c.parallel - 1) && j < |s.log|
      ensures s.log[i] + c.window <= s.log[j]
    {
      var n := i + c.limit - 1;
      assert Late(s, n) <= c.parallel;
      if forall k :: 0 <= k < c.parallel + 1 ==> s.made[n..][k].seen <= n {
        CountSeenAll(s.made[n..], c.parallel + 1, n);
        assert false;
      } else {
        var k :| 0 <= k < c.parallel + 1 && s.made[n..][k].seen > n;
        var a := s.made[n + k];
        assert Admitted(c, s.log, a) && a.checkedAt <= s.log[n + k];
        assert s.log[i] <= s.log[a.seen - c.limit] && s.log[n + k] <= s.log[j];
      }
    }
  }

  /** The shared theorem. Over every run, with at most c.parallel attempts in flight at once, every interval of
      the window's length since the last success holds at most limit + parallel - 1 evaluated failures:
      limit when attempts are sequential. */
  lemma WindowBound(c: Config, now: real, events: seq<Event>)
    requires c.limit > 0 && c.parallel > 0 && Runs(c, Initial(now), events)
    ensures Bounded(After(c, Initial(now), events).log, c.window, c.limit + c.parallel - 1)
  {
    var s := After(c, Initial(now), events);
    if c.window > 0.0 {
      RunsKeepInv(c, now, events);
      SpreadInState(c, s);
      SpreadBounds(s.log, c.window, c.limit + c.parallel - 1);
    } else {
      forall from: real ensures CountWithin(s.log, from, c.window) <= c.limit + c.parallel - 1 {
        CountInside(s.log, from, from + c.window, 0, 0);
      }
    }
  }

  ghost predicate Leads(c: Config, start: real, events: seq<Event>, s: State) {
    Runs(c, Initial(start), events) && After(c, Initial(start), events) == s
  }

  /** Some run from the start leads to s. */
  ghost predicate Reachable(c: Config, start: real, s: State) {
    exists events: seq<Event> :: Leads(c, start, events, s)
  }

  lemma InitialReachable(c: Config, start: real)
    ensures Reachable(c, start, Initial(start))
  {
    assert Leads(c, start, [], Initial(start));
  }

  lemma StepReachable(c: Config, start: real, s: State, e: Event)
    requires Reachable(c, start, s) && Enabled(c, s, e)
    ensures Reachable(c, start, Step(c, s, e))
  {
    var events :| Leads(c, start, events, s);
    assert (events + [e])[..|events|] == events;
    assert Leads(c, start, events + [e], Step(c, s, e));
  }

  lemma ReachableBound(c: Config, start: real, s: State)
    requires c.limit > 0 && c.parallel > 0 && Reachable(c, start, s)
    ensures Bounded(s.log, c.window, c.limit + c.parallel - 1)
  {
    var events :| Leads(c, start, events, s);
    WindowBound(c, start, events);
  }

  // ---- the bound is reached ----

  function Repeat<T>(x: T, n: nat): (r: seq<T>)
    ensures |r| == n
  {
    seq(n, i => x)
  }

  /** The state after n failures at time 0, with some attempts in flight. */
  ghost predicate AtZero(s: State, n: nat, inFlight: nat) {
    s.now == 0.0 && s.kept == s.log == Repeat(0.0, n) && |s.inFlight| == inFlight
  }

  lemma AdmitAtZero(c: Config, s: State, n: nat, inFlight: nat)
    requires AtZero(s, n, inFlight) && n < c.limit && inFlight < c.parallel
    ensures Enabled(c, s, Admit) && AtZero(Step(c, s, Admit), n, inFlight + 1)
  {
    RecentAtMost(s.kept, s.now - c.window);
  }

  lemma FailAtZero(c: Config, s: State, n: nat, inFlight: nat)
    requires AtZero(s, n, inFlight) && 0 < inFlight
    ensures Enabled(c, s, Fail(0)) && AtZero(Step(c, s, Fail(0)), n + 1, inFlight - 1)
  {
    assert Repeat(0.0, n) + [0.0] == Repeat(0.0, n + 1);
  }

  /** n sequential failures at time 0. */
  lemma {:induction false} FillSequentially(c: Config, n: nat) returns (events: seq<Event>)
    requires c.parallel > 0 && n <= c.limit
    ensures Runs(c, Initial(0.0), events) && AtZero(After(c, Initial(0.0), events), n, 0)
  {
    if n == 0 {
      events := [];
    } else {
      var before := FillSequentially(c, n - 1);
      AdmitAtZero(c, After(c, Initial(0.0), before), n - 1, 0);
      var admit := Append(c, before, Admit);
      FailAtZero(c, After(c, Initial(0.0), admit), n - 1, 1);
      events := Append(c, admit, Fail(0));
    }
  }

  lemma Append(c: Config, before: seq<Event>, e: Event) returns (events: seq<Event>)
    requires Runs(c, Initial(0.0), before) && Enabled(c, After(c, Initial(0.0), before), e)
    ensures Runs(c, Initial(0.0), events)
    ensures After(c, Initial(0.0), events) == Step(c, After(c, Initial(0.0), before), e)
  {
    events := before + [e];
    assert events[..|before|] == before;
  }

  lemma {:induction false} RecentAtMost(times: seq<real>, cutoff: real)
    ensures |Recent(times, cutoff)| <= |times|
  {
    if times != [] {
      RecentAtMost(times[..|times| - 1], cutoff);
    }
  }

  lemma {:induction false} AdmitTogether(c: Config, n: nat) returns (events: seq<Event>)
    requires c.limit > 0 && n <= c.parallel && c.parallel > 0
    ensures Runs(c, Initial(0.0), events) && AtZero(After(c, Initial(0.0), events), c.limit - 1, n)
  {
    if n == 0 {
      events := FillSequentially(c, c.limit - 1);
    } else {
      var before := AdmitTogether(c, n - 1);
      AdmitAtZero(c, After(c, Initial(0.0), before), c.limit - 1, n - 1);
      events := Append(c, before, Admit);
    }
  }

  lemma {:induction false} FailTogether(c: Config, n: nat) returns (events: seq<Event>)
    requires c.limit > 0 && n <= c.parallel && c.parallel > 0
    ensures Runs(c, Initial(0.0), events) && AtZero(After(c, Initial(0.0), events), c.limit - 1 + n, c.parallel - n)
  {
    if n == 0 {
      events := AdmitTogether(c, c.parallel);
    } else {
      var before := FailTogether(c, n - 1);
      FailAtZero(c, After(c, Initial(0.0), before), c.limit - 1 + (n - 1), c.parallel - (n - 1));
      events := Append(c, before, Fail(0));
    }
  }

  lemma {:induction false} CountRepeated(n: nat, from: real, to: real)
    requires from <= 0.0 < to
    ensures CountIn(Repeat(0.0, n), from, to) == n
  {
    if n > 0 {
      CountRepeated(n - 1, from, to);
      assert Repeat(0.0, n)[..n - 1] == Repeat(0.0, n - 1);
    }
  }

  /** The limit itself bounds every run exactly when attempts are sequential. */
  lemma LimitHoldsIffSequential(c: Config)
    requires c.limit > 0 && c.parallel > 0 && c.window > 0.0
    ensures (forall now: real, events: seq<Event> :: Runs(c, Initial(now), events) ==>
      Bounded(After(c, Initial(now), events).log, c.window, c.limit)) <==> c.parallel == 1
  {
    if c.parallel == 1 {
      forall now: real, events: seq<Event> | Runs(c, Initial(now), events)
        ensures Bounded(After(c, Initial(now), events).log, c.window, c.limit)
      {
        WindowBound(c, now, events);
      }
    } else {
      var events := FailTogether(c, c.parallel);
      TooMany(c, After(c, Initial(0.0), events).log);
      assert !Bounded(After(c, Initial(0.0), events).log, c.window, c.limit);
    }
  }

  lemma TooMany(c: Config, log: seq<real>)
    requires c.window > 0.0 && c.parallel > 1 && log == Repeat(0.0, c.limit - 1 + c.parallel) && c.limit > 0
    ensures !Bounded(log, c.window, c.limit)
  {
    CountRepeated(c.limit - 1 + c.parallel, 0.0, 0.0 + c.window);
    assert CountWithin(log, 0.0, c.window) > c.limit;
  }
}
