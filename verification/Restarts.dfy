/** The process supervisor: a crashed process is restarted at most max times per window, then left alone
    for a cooldown, after which its history is cleared. */
module Restarts {
  import opened SlidingWindow

  datatype Option<T> = None | Some(value: T)

  datatype Config = Config(max: nat, window: real, cooldown: real)

  /** What the monitor remembers of one process. */
  datatype Memory = Memory(history: seq<real>, cooldownUntil: Option<real>)

  datatype Action = Cooling | EntersCooldown | Restarts

  const FORGOTTEN := Memory([], None)

  /** One look at a process found dead, at time now. */
  function Look(c: Config, m: Memory, now: real): (Memory, Action) {
    if m.cooldownUntil.Some? && now < m.cooldownUntil.value then (m, Cooling)
    else
      var recent := Recent(if m.cooldownUntil.Some? then [] else m.history, now - c.window);
      if |recent| >= c.max then (Memory(recent, Some(now + c.cooldown)), EntersCooldown)
      else (Memory(recent + [now], None), Restarts)
  }

  /** A look during a cooldown changes nothing, its end included. Otherwise the restarts of the last window count, or none when a
      cooldown has just ended: max of them start a cooldown from now, fewer are joined by one more restart. */
  lemma LookInFields(c: Config, m: Memory, now: real)
    ensures var (m', action) := Look(c, m, now);
      && (m.cooldownUntil.Some? && now < m.cooldownUntil.value ==> m' == m && action == Cooling)
      && (m.cooldownUntil.None? || now >= m.cooldownUntil.value ==> (
          var young := |set k: nat | k < |m.history| && now - m.history[k] < c.window|;
          var count := if m.cooldownUntil.Some? then 0 else young;
          && (count >= c.max ==> action == EntersCooldown && m'.cooldownUntil == Some(now + c.cooldown))
          && (count < c.max ==> action == Restarts && m'.cooldownUntil == None && |m'.history| == count + 1 && m'.history[count] == now)))
  {
    RecentMembers(m.history, now - c.window);
    assert (set k: nat | k < |m.history| && m.history[k] > now - c.window) ==
      set k: nat | k < |m.history| && now - m.history[k] < c.window;
  }

  /** However often a process is looked at during a cooldown, it is left alone and the cooldown ends when it did. */
  lemma {:induction false} CooldownLeftAlone(c: Config, m: Memory, looks: seq<real>)
    requires m.cooldownUntil.Some? && forall k :: 0 <= k < |looks| ==> looks[k] < m.cooldownUntil.value
    ensures AfterLooks(c, m, looks) == m
  {
    if looks != [] {
      CooldownLeftAlone(c, m, looks[..|looks| - 1]);
    }
  }

  function AfterLooks(c: Config, m: Memory, looks: seq<real>): Memory {
    if looks == [] then m else Look(c, AfterLooks(c, m, looks[..|looks| - 1]), looks[|looks| - 1]).0
  }

  /** The first look after a cooldown restarts the process, with a history of that restart alone. */
  lemma RestartsAfterCooldown(c: Config, m: Memory, now: real)
    requires c.max > 0 && m.cooldownUntil.Some? && now >= m.cooldownUntil.value
    ensures Look(c, m, now) == (Memory([now], None), Restarts)
  {
    assert Recent([], now - c.window) == [] && [] + [now] == [now];
  }

  function MemoryOf(histories: map<string, seq<real>>, cooldowns: map<string, real>, name: string): Memory {
    Memory(if name in histories then histories[name] else [], if name in cooldowns then Some(cooldowns[name]) else None)
  }

  class Monitor {
    const config: Config
    var processes: set<string>
    var restartHistory: map<string, seq<real>>
    var cooldownUntil: map<string, real>

    function MemoryFor(name: string): Memory
      reads this
    {
      MemoryOf(restartHistory, cooldownUntil, name)
    }

    constructor (config: Config, processes: set<string>)
      ensures this.config == config && this.processes == processes && forall name :: MemoryFor(name) == FORGOTTEN
    {
      this.config, this.processes := config, processes;
      restartHistory, cooldownUntil := map[], map[];
    }

    /** A monitored process was found dead: a clean exit drops it for good, a crash is looked at. */
    method FoundDead(name: string, exitCode: Option<int>, now: real) returns (action: Option<Action>)
      requires name in processes
      modifies this`processes, this`restartHistory, this`cooldownUntil
      ensures action == if exitCode == Some(0) then None else Some(Look(config, old(MemoryFor(name)), now).1)
      ensures MemoryFor(name) == if exitCode == Some(0) then FORGOTTEN else Look(config, old(MemoryFor(name)), now).0
      ensures processes == if exitCode == Some(0) then old(processes) - {name} else old(processes)
      ensures forall other :: other != name ==> MemoryFor(other) == old(MemoryFor(other))
    {
      if exitCode == Some(0) {
        processes := processes - {name};
        restartHistory, cooldownUntil := restartHistory - {name}, cooldownUntil - {name};
        return None;
      }
      if name in cooldownUntil && now < cooldownUntil[name] {
        return Some(Cooling);
      }
      if name in cooldownUntil {
        cooldownUntil := cooldownUntil - {name};
        restartHistory := restartHistory[name := []];
      }
      var history := Recent(if name in restartHistory then restartHistory[name] else [], now - config.window);
      restartHistory := restartHistory[name := history];
      if |history| >= config.max {
        cooldownUntil := cooldownUntil[name := now + config.cooldown];
        return Some(EntersCooldown);
      }
      restartHistory := restartHistory[name := history + [now]];
      return Some(Restarts);
    }
  }

  // ---- runs of one process ----

  /** One process: the time of the last look, the monitor's memory, and every restart so far, never forgotten. */
  datatype Process = Process(now: real, memory: Memory, restarts: seq<real>)

  function LogAfter(c: Config, m: Memory, log: seq<real>, now: real): seq<real> {
    log + if Look(c, m, now).1 == Restarts then [now] else []
  }

  /** The process is found crashed at time now. */
  function Crashed(c: Config, s: Process, now: real): Process {
    Process(now, Look(c, s.memory, now).0, LogAfter(c, s.memory, s.restarts, now))
  }

  ghost predicate IsRun(c: Config, states: seq<Process>) {
    && states != [] && states[0].memory == FORGOTTEN && states[0].restarts == []
    && forall k :: 0 <= k < |states| - 1 ==> states[k].now <= states[k + 1].now && states[k + 1] == Crashed(c, states[k], states[k + 1].now)
  }

  ghost predicate Leads(c: Config, states: seq<Process>, s: Process) {
    IsRun(c, states) && states[|states| - 1] == s
  }

  ghost predicate Reachable(c: Config, s: Process) {
    exists states :: Leads(c, states, s)
  }

  lemma StartReachable(c: Config, now: real)
    ensures Reachable(c, Process(now, FORGOTTEN, []))
  {
    assert Leads(c, [Process(now, FORGOTTEN, [])], Process(now, FORGOTTEN, []));
  }

  lemma CrashReachable(c: Config, s: Process, now: real)
    requires Reachable(c, s) && s.now <= now
    ensures Reachable(c, Crashed(c, s, now))
  {
    var states :| Leads(c, states, s);
    assert Leads(c, states + [Crashed(c, s, now)], Crashed(c, s, now));
  }

  /** Restarts dropped from the history are a window old, and every restart is a cooldown older than the cooldown's end. */
  ghost predicate Remembers(c: Config, m: Memory, log: seq<real>, now: real) {
    && Sorted(log) && (forall i :: 0 <= i < |log| ==> log[i] <= now)
    && Spread(log, c.window, c.max)
    && |m.history| <= |log| && m.history == log[|log| - |m.history|..]
    && (forall i :: 0 <= i < |log| - |m.history| ==> log[i] + c.window <= now)
    && (m.cooldownUntil.Some? ==> forall i :: 0 <= i < |log| ==> log[i] + c.cooldown <= m.cooldownUntil.value)
  }

  /** Pruning a sorted list drops a prefix of old entries. */
  lemma {:induction false} RecentIsSuffix(times: seq<real>, cutoff: real)
    requires Sorted(times)
    ensures |Recent(times, cutoff)| <= |times| && Recent(times, cutoff) == times[|times| - |Recent(times, cutoff)|..]
    ensures forall i :: 0 <= i < |times| - |Recent(times, cutoff)| ==> times[i] <= cutoff
  {
    if times != [] {
      var rest, last := times[..|times| - 1], times[|times| - 1];
      if last <= cutoff {
        NothingRecent(times, cutoff);
      } else {
        RecentIsSuffix(rest, cutoff);
        assert times == rest + [last];
        assert Recent(times, cutoff) == Recent(rest, cutoff) + [last];
      }
    }
  }

  lemma {:induction false} NothingRecent(times: seq<real>, cutoff: real)
    requires forall i :: 0 <= i < |times| ==> times[i] <= cutoff
    ensures Recent(times, cutoff) == []
  {
    if times != [] {
      NothingRecent(times[..|times| - 1], cutoff);
    }
  }

  /** The history just before the limit is applied: pruned, or emptied after a cooldown no shorter than the window. */
  lemma PrunedRemembers(c: Config, m: Memory, log: seq<real>, earlier: real, now: real) returns (recent: seq<real>)
    requires Remembers(c, m, log, earlier) && earlier <= now && c.cooldown >= c.window
    requires m.cooldownUntil.Some? ==> m.cooldownUntil.value <= now
    ensures recent == Recent(if m.cooldownUntil.Some? then [] else m.history, now - c.window)
    ensures Remembers(c, Memory(recent, None), log, now)
  {
    if m.cooldownUntil.Some? {
      recent := [];
      AfterCooldown(c, m, log, earlier, now);
    } else {
      SuffixSorted(log, m.history);
      RecentIsSuffix(m.history, now - c.window);
      recent := Recent(m.history, now - c.window);
      DropMore(c, m, log, recent, earlier, now);
    }
  }

  lemma AfterCooldown(c: Config, m: Memory, log: seq<real>, earlier: real, now: real)
    requires Remembers(c, m, log, earlier) && earlier <= now && c.cooldown >= c.window
    requires m.cooldownUntil.Some? && m.cooldownUntil.value <= now
    ensures Remembers(c, Memory([], None), log, now)
  {
  }

  lemma SuffixSorted(log: seq<real>, suffix: seq<real>)
    requires Sorted(log) && |suffix| <= |log| && suffix == log[|log| - |suffix|..]
    ensures Sorted(suffix)
  {
  }

  lemma DropMore(c: Config, m: Memory, log: seq<real>, recent: seq<real>, earlier: real, now: real)
    requires Remembers(c, m, log, earlier) && earlier <= now
    requires |recent| <= |m.history| && recent == m.history[|m.history| - |recent|..]
    requires forall i :: 0 <= i < |m.history| - |recent| ==> m.history[i] <= now - c.window
    ensures Remembers(c, Memory(recent, None), log, now)
  {
    var dropped := |log| - |m.history|;
    forall i | dropped <= i < |log| - |recent| ensures log[i] + c.window <= now {
      assert log[i] == m.history[i - dropped];
    }
  }

  lemma RestartKeepsSpread(c: Config, recent: seq<real>, log: seq<real>, now: real)
    requires Remembers(c, Memory(recent, None), log, now) && |recent| < c.max
    ensures Remembers(c, Memory(recent + [now], None), log + [now], now)
  {
    var log' := log + [now];
    forall i, j | 0 <= i && j == i + c.max && j < |log'|
      ensures log'[i] + c.window <= log'[j]
    {
    }
  }

  /** What a look does once the pruned history is known. */
  lemma LookWith(c: Config, m: Memory, now: real, recent: seq<real>)
    requires m.cooldownUntil.Some? ==> m.cooldownUntil.value <= now
    requires recent == Recent(if m.cooldownUntil.Some? then [] else m.history, now - c.window)
    ensures |recent| < c.max ==> Look(c, m, now) == (Memory(recent + [now], None), Restarts)
    ensures |recent| >= c.max ==> Look(c, m, now) == (Memory(recent, Some(now + c.cooldown)), EntersCooldown)
  {
  }

  lemma LookRemembers(c: Config, m: Memory, log: seq<real>, earlier: real, now: real)
    requires Remembers(c, m, log, earlier) && earlier <= now && c.cooldown >= c.window
    ensures Remembers(c, Look(c, m, now).0, LogAfter(c, m, log, now), now)
  {
    if m.cooldownUntil.Some? && now < m.cooldownUntil.value {
      assert LogAfter(c, m, log, now) == log;
    } else {
      var recent := PrunedRemembers(c, m, log, earlier, now);
      LookWith(c, m, now, recent);
      if |recent| < c.max {
        RestartKeepsSpread(c, recent, log, now);
        assert LogAfter(c, m, log, now) == log + [now];
      } else {
        CooldownRemembers(c, recent, log, now);
        assert LogAfter(c, m, log, now) == log;
      }
    }
  }

  lemma CooldownRemembers(c: Config, recent: seq<real>, log: seq<real>, now: real)
    requires Remembers(c, Memory(recent, None), log, now)
    ensures Remembers(c, Memory(recent, Some(now + c.cooldown)), log, now)
  {
  }

  lemma {:induction false} RunRemembers(c: Config, states: seq<Process>, k: nat)
    requires IsRun(c, states) && k < |states| && c.cooldown >= c.window
    ensures Remembers(c, states[k].memory, states[k].restarts, states[k].now)
  {
    if k > 0 {
      var s := states[k - 1];
      RunRemembers(c, states, k - 1);
      LookRemembers(c, s.memory, s.restarts, s.now, states[k].now);
    }
  }

  /** With a cooldown no shorter than the window, no window ever holds more than max restarts,
      although the history is cleared after every cooldown. */
  lemma RestartsBounded(c: Config, s: Process)
    requires Reachable(c, s) && c.cooldown >= c.window
    ensures Bounded(s.restarts, c.window, c.max)
  {
    var states :| Leads(c, states, s);
    RunRemembers(c, states, |states| - 1);
    SpreadBounds(s.restarts, c.window, c.max);
  }

  // ---- a shorter cooldown breaks the bound ----

  ghost predicate AllZero(times: seq<real>) {
    forall i :: 0 <= i < |times| ==> times[i] == 0.0
  }

  lemma {:induction false} AllRecent(times: seq<real>, cutoff: real)
    requires AllZero(times) && cutoff < 0.0
    ensures Recent(times, cutoff) == times
  {
    if times != [] {
      AllRecent(times[..|times| - 1], cutoff);
    }
  }

  lemma LookCooled(c: Config, history: seq<real>, until: real, now: real)
    requires c.max > 0 && until <= now
    ensures Look(c, Memory(history, Some(until)), now).1 == Restarts
  {
  }

  /** The next crash at time 0 while the history has room. */
  lemma RestartedAgain(c: Config, history: seq<real>)
    requires AllZero(history) && |history| < c.max && c.window > 0.0
    ensures Crashed(c, Process(0.0, Memory(history, None), history), 0.0) == Process(0.0, Memory(history + [0.0], None), history + [0.0])
  {
    AllRecent(history, 0.0 - c.window);
    LookWith(c, Memory(history, None), 0.0, history);
  }

  lemma {:induction false} RestartsAtZero(c: Config, n: nat) returns (history: seq<real>)
    requires n <= c.max && c.window > 0.0
    ensures AllZero(history) && |history| == n && Reachable(c, Process(0.0, Memory(history, None), history))
  {
    if n == 0 {
      history := [];
      StartReachable(c, 0.0);
    } else {
      history := RestartsAtZero(c, n - 1);
      RestartedAgain(c, history);
      CrashReachable(c, Process(0.0, Memory(history, None), history), 0.0);
      history := history + [0.0];
    }
  }

  /** One more crash than max at time 0 starts the cooldown; the first crash after it is answered by a restart. */
  lemma RefusedThenRestarted(c: Config, history: seq<real>, resume: real)
    requires AllZero(history) && |history| == c.max > 0 && c.window > 0.0 && 0.0 + c.cooldown <= resume
    ensures var refused := Crashed(c, Process(0.0, Memory(history, None), history), 0.0);
      refused.now == 0.0 && Crashed(c, refused, resume).restarts == history + [resume]
  {
    AllRecent(history, 0.0 - c.window);
    LookWith(c, Memory(history, None), 0.0, history);
    LookCooled(c, history, 0.0 + c.cooldown, resume);
  }

  /** max restarts, one refused crash, then one more restart as soon as the cooldown is over. */
  lemma ShortCooldownExceeds(c: Config) returns (s: Process)
    requires c.max > 0 && c.window > 0.0 && c.cooldown < c.window
    ensures Reachable(c, s) && !Bounded(s.restarts, c.window, c.max)
  {
    var resume := if c.cooldown < 0.0 then 0.0 else c.cooldown;
    var history := RestartsAtZero(c, c.max);
    var full := Process(0.0, Memory(history, None), history);
    RefusedThenRestarted(c, history, resume);
    CrashReachable(c, full, 0.0);
    CrashReachable(c, Crashed(c, full, 0.0), resume);
    s := Crashed(c, Crashed(c, full, 0.0), resume);
    OneTooMany(c, history, resume);
  }

  lemma {:induction false} CountAllZero(times: seq<real>, window: real)
    requires AllZero(times) && window > 0.0
    ensures CountIn(times, 0.0, 0.0 + window) == |times|
  {
    if times != [] {
      CountAllZero(times[..|times| - 1], window);
    }
  }

  lemma OneTooMany(c: Config, history: seq<real>, resume: real)
    requires AllZero(history) && |history| == c.max && 0.0 <= resume < c.window
    ensures !Bounded(history + [resume], c.window, c.max)
  {
    var log := history + [resume];
    assert log[..c.max] == history;
    CountAllZero(history, c.window);
    assert CountWithin(log, 0.0, c.window) > c.max;
  }

  lemma {:induction false} NoRestarts(c: Config, states: seq<Process>, k: nat)
    requires IsRun(c, states) && k < |states| && c.max == 0
    ensures states[k].restarts == []
  {
    if k > 0 {
      NoRestarts(c, states, k - 1);
    }
  }

  /** Exactly when the bound holds in every reachable state. */
  lemma BoundedIffCooldownCoversWindow(c: Config)
    ensures (forall s :: Reachable(c, s) ==> Bounded(s.restarts, c.window, c.max)) <==>
      c.cooldown >= c.window || c.max == 0 || c.window <= 0.0
  {
    if c.cooldown >= c.window || c.max == 0 || c.window <= 0.0 {
      forall s | Reachable(c, s)
        ensures Bounded(s.restarts, c.window, c.max)
      {
        if c.cooldown >= c.window {
          RestartsBounded(c, s);
        } else if c.max == 0 {
          var states :| Leads(c, states, s);
          NoRestarts(c, states, |states| - 1);
          NoneBounded(c.window, c.max);
        } else {
          EmptyWindow(s.restarts, c.window, c.max);
        }
      }
    } else {
      var s := ShortCooldownExceeds(c);
      assert Reachable(c, s) && !Bounded(s.restarts, c.window, c.max);
    }
  }

  lemma NoneBounded(window: real, bound: nat)
    ensures Bounded([], window, bound)
  {
  }

  lemma EmptyWindow(times: seq<real>, window: real, bound: nat)
    requires window <= 0.0
    ensures Bounded(times, window, bound)
  {
    forall from: real ensures CountWithin(times, from, window) <= bound {
      CountInside(times, from, from + window, 0, 0);
    }
  }
}
