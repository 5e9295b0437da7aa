/**
 The refresh throttle of src/bootstrap.cc as a state machine. Times are nanoseconds; the
 config monitor appears as the answers it gives: whether it is refreshing, and what it sends.
 */
module Throttle {
  datatype State = InitialPre | InitialTriggered | Bootstrapped

  const REFRESH_INITIAL: bv8 := 0x02
  const REFRESH_THROTTLE: bv8 := 0x04
  const REFRESH_INCRERR: bv8 := 0x08
  const REFRESH_OPEN_BUCKET: bv8 := 0x10

  // weird_things_threshold, and weird_things_delay in microseconds
  datatype Settings = Settings(threshold: nat, delay: nat)

  datatype Boot = Boot(state: State, lastRefresh: int, errcounter: nat)

  datatype Event =
    | Call(options: bv8, refreshing: bool)        // bootstrap()
    | Listen(newConfig: bool, file: bool)         // clconfig_lsn(); file: the config comes from the file provider
    | Dispatch(config: bool, file: bool)          // timer_dispatch(); config: the monitor has one

  ghost predicate Throttled(options: bv8) {
    options & 0x04 != 0
  }

  /** A call that reaches the throttle at all. */
  ghost predicate Reaches(e: Event) {
    e.Call? && (e.options == 0x10 || !e.refreshing)
  }

  /** A call that counts an error. */
  ghost predicate Counts(e: Event) {
    Reaches(e) && Throttled(e.options) && e.options & 0x08 != 0
  }

  /** A call that starts over. */
  ghost predicate Resets(e: Event) {
    e.Call? && (e.options == 0x10 || (e.options == 0x02 && !e.refreshing))
  }

  /** Bootstrap::bootstrap; the result says whether a refresh was started. */
  function Refresh(b: Boot, cfg: Settings, options: bv8, refreshing: bool, now: int): (r: (Boot, bool)) {
    if options != REFRESH_OPEN_BUCKET && refreshing then (b, false)
    else
      var b1 := if options == REFRESH_OPEN_BUCKET then b.(state := InitialPre) else b;
      var throttle := options & REFRESH_THROTTLE != 0;
      var b2 := if throttle && options & REFRESH_INCRERR != 0 then b1.(errcounter := b1.errcounter + 1)
        else b1;
      if throttle && now < b2.lastRefresh + 1000 * cfg.delay && b2.errcounter < cfg.threshold
        then (b2, false)
      else (Boot(if options == REFRESH_INITIAL then InitialPre else b2.state,
                 if options == REFRESH_INITIAL then b2.lastRefresh else now, 0), true)
  }

  /** Bootstrap::config_callback on a new config. */
  function NewConfig(b: Boot, file: bool, now: int): Boot {
    if file then b.(state := Bootstrapped) else Boot(Bootstrapped, now, 0)
  }

  function Step(b: Boot, cfg: Settings, e: Event, now: int): (r: (Boot, bool)) {
    match e
    case Call(options, refreshing) => Refresh(b, cfg, options, refreshing, now)
    case Listen(newConfig, file) => (if b.state.InitialPre? && newConfig then NewConfig(b, file, now) else b, false)
    case Dispatch(config, file) => (if !b.state.InitialPre? && config then NewConfig(b, file, now) else b, false)
  }

  // ---------------------------------------------------------------- whole runs

  datatype Timed = Timed(now: int, event: Event)

  function After(b: Boot, cfg: Settings, run: seq<Timed>): Boot {
    if run == [] then b
    else Step(After(b, cfg, run[..|run| - 1]), cfg, run[|run| - 1].event, run[|run| - 1].now).0
  }

  /** Whether event `i` of a run starts a refresh. */
  predicate Starts(b: Boot, cfg: Settings, run: seq<Timed>, i: nat)
    requires i < |run|
  {
    Step(After(b, cfg, run[..i]), cfg, run[i].event, run[i].now).1
  }

  ghost predicate Monotone(run: seq<Timed>) {
    forall i, j :: 0 <= i < j < |run| ==> run[i].now <= run[j].now
  }

  ghost function Errors(run: seq<Timed>): nat {
    if run == [] then 0
    else Errors(run[..|run| - 1]) + if Counts(run[|run| - 1].event) then 1 else 0
  }

  function Start(): Boot {
    Boot(InitialPre, 0, 0)
  }

  /** The error counter is always 0 or below the threshold. */
  lemma {:induction false} CounterBounded(cfg: Settings, run: seq<Timed>)
    ensures var c := After(Start(), cfg, run).errcounter; c == 0 || c < cfg.threshold
  {
    if run != [] {
      CounterBounded(cfg, run[..|run| - 1]);
    }
  }

  lemma AllButLast(run: seq<Timed>, i: nat, n: nat)
    requires i < n <= |run|
    ensures run[i..n][..n - i - 1] == run[i..n - 1] && run[i..n][n - i - 1] == run[n - 1]
    ensures Errors(run[i..n]) == Errors(run[i..n - 1]) + if Counts(run[n - 1].event) then 1 else 0
  {
    assert run[i..n][..n - i - 1] == run[i..n - 1];
  }

  /** From a non-initial start on, the refresh time never goes back and the counter counts calls. */
  lemma {:induction false} SinceStart(b: Boot, cfg: Settings, run: seq<Timed>, a: nat, n: nat)
    requires a < n <= |run| && Monotone(run) && Starts(b, cfg, run, a) && run[a].event.options != 0x02
    ensures var s := After(b, cfg, run[..n]);
            run[a].now <= s.lastRefresh <= run[n - 1].now && s.errcounter <= Errors(run[a + 1..n])
  {
    hide Refresh, Counts;
    var before := run[..n];
    assert before[..n - 1] == run[..n - 1];
    var s, e, now := After(b, cfg, run[..n - 1]), run[n - 1].event, run[n - 1].now;
    StepFacts(s, cfg, e, now);
    if a < n - 1 {
      SinceStart(b, cfg, run, a, n - 1);
      AllButLast(run, a + 1, n);
    }
  }

  /** What one event does to the two fields. */
  lemma StepFacts(s: Boot, cfg: Settings, e: Event, now: int)
    ensures var (r, started) := Step(s, cfg, e, now);
            && (r.lastRefresh == s.lastRefresh || r.lastRefresh == now)
            && r.errcounter <= s.errcounter + (if Counts(e) then 1 else 0)
            && (started ==> e.Call? && r.errcounter == 0 && (e.options != 0x02 ==> r.lastRefresh == now))
  {
  }

  /**
   The rate guarantee: between a non-initial refresh and any later one that was subject to the
   throttle at least the configured delay passes or at least the threshold of errors is counted.
   */
  lemma {:induction false} RateLimited(b: Boot, cfg: Settings, run: seq<Timed>, first: nat, next: nat)
    requires first < next < |run| && Monotone(run)
    requires Starts(b, cfg, run, first) && run[first].event.options != 0x02
    requires Starts(b, cfg, run, next) && Throttled(run[next].event.options)
    ensures run[next].now - run[first].now >= 1000 * cfg.delay
      || Errors(run[first + 1..next + 1]) >= cfg.threshold
  {
    SinceStart(b, cfg, run, first, next);
    AllButLast(run, first + 1, next + 1);
  }

  /** Event `i` applies a new config that did not come from a file. */
  predicate Applies(b: Boot, cfg: Settings, run: seq<Timed>, i: nat)
    requires i < |run|
  {
    match run[i].event
    case Call(_, _) => false
    case Listen(newConfig, file) => newConfig && !file && After(b, cfg, run[..i]).state.InitialPre?
    case Dispatch(config, file) => config && !file && !After(b, cfg, run[..i]).state.InitialPre?
  }

  /** Event `i` is activity that the delay counts from. */
  predicate Refreshes(b: Boot, cfg: Settings, run: seq<Timed>, i: nat)
    requires i < |run|
  {
    Applies(b, cfg, run, i) || (Starts(b, cfg, run, i) && run[i].event.options != 0x02)
  }

  /** Event `i` forgets the errors counted so far. */
  predicate Clears(b: Boot, cfg: Settings, run: seq<Timed>, i: nat)
    requires i < |run|
  {
    Applies(b, cfg, run, i) || Starts(b, cfg, run, i)
  }

  lemma AfterOne(b: Boot, cfg: Settings, run: seq<Timed>, n: nat)
    requires n < |run|
    ensures After(b, cfg, run[..n + 1]) == Step(After(b, cfg, run[..n]), cfg, run[n].event, run[n].now).0
  {
    assert run[..n + 1][..n] == run[..n];
  }

  lemma TimeStep(b: Boot, cfg: Settings, run: seq<Timed>, n: nat)
    requires n < |run|
    ensures After(b, cfg, run[..n + 1]).lastRefresh ==
            if Refreshes(b, cfg, run, n) then run[n].now else After(b, cfg, run[..n]).lastRefresh
  {
    AfterOne(b, cfg, run, n);
  }

  /** The refresh time is the time of the last activity. */
  lemma {:induction false} LastRefreshIs(b: Boot, cfg: Settings, run: seq<Timed>, i: nat, n: nat)
    requires i < n <= |run| && Refreshes(b, cfg, run, i) && forall k :: i < k < n ==> !Refreshes(b, cfg, run, k)
    ensures After(b, cfg, run[..n]).lastRefresh == run[i].now
  {
    hide After, Refreshes;
    TimeStep(b, cfg, run, n - 1);
    if i < n - 1 {
      LastRefreshIs(b, cfg, run, i, n - 1);
    }
  }

  lemma CounterStep(b: Boot, cfg: Settings, run: seq<Timed>, n: nat)
    requires n < |run|
    ensures After(b, cfg, run[..n + 1]).errcounter ==
            if Clears(b, cfg, run, n) then 0
            else After(b, cfg, run[..n]).errcounter + if Counts(run[n].event) then 1 else 0
  {
    AfterOne(b, cfg, run, n);
  }

  /** The counter is the number of errors counted since it was last cleared. */
  lemma {:induction false} CounterIs(b: Boot, cfg: Settings, run: seq<Timed>, i: nat, n: nat)
    requires i < n <= |run| && Clears(b, cfg, run, i) && forall k :: i < k < n ==> !Clears(b, cfg, run, k)
    ensures After(b, cfg, run[..n]).errcounter == Errors(run[i + 1..n])
  {
    hide After, Clears;
    CounterStep(b, cfg, run, n - 1);
    if i < n - 1 {
      CounterIs(b, cfg, run, i, n - 1);
      AllButLast(run, i + 1, n);
    }
  }

  /**
   What decides about a throttled call, in terms of the run alone: it starts a refresh exactly if
   the delay since the last activity is over or, this call included, enough errors were counted
   since the counter was last cleared.
   */
  lemma {:induction false} ThrottleDecides(b: Boot, cfg: Settings, run: seq<Timed>, active: nat, cleared: nat, n: nat)
    requires active < n < |run| && cleared < n && Reaches(run[n].event) && Throttled(run[n].event.options)
    requires Refreshes(b, cfg, run, active) && forall k :: active < k < n ==> !Refreshes(b, cfg, run, k)
    requires Clears(b, cfg, run, cleared) && forall k :: cleared < k < n ==> !Clears(b, cfg, run, k)
    ensures Starts(b, cfg, run, n) <==>
            || run[n].now - run[active].now >= 1000 * cfg.delay
            || Errors(run[cleared + 1..n + 1]) >= cfg.threshold
  {
    hide Refreshes, Clears, After;
    LastRefreshIs(b, cfg, run, active, n);
    CounterIs(b, cfg, run, cleared, n);
    AllButLast(run, cleared + 1, n + 1);
  }

  /** As long as nothing of the kind has happened, time and counter go on from where they started. */
  lemma {:induction false} Undisturbed(b: Boot, cfg: Settings, run: seq<Timed>, n: nat)
    requires n <= |run|
    ensures (forall k :: 0 <= k < n ==> !Refreshes(b, cfg, run, k)) ==>
              After(b, cfg, run[..n]).lastRefresh == b.lastRefresh
    ensures (forall k :: 0 <= k < n ==> !Clears(b, cfg, run, k)) ==>
              After(b, cfg, run[..n]).errcounter == b.errcounter + Errors(run[..n])
  {
    hide Refreshes, Clears;
    if n > 0 {
      Undisturbed(b, cfg, run, n - 1);
      TimeStep(b, cfg, run, n - 1);
      CounterStep(b, cfg, run, n - 1);
      assert run[..n][..n - 1] == run[..n - 1];
    }
  }

  /** A call outside the throttle starts a refresh unless one is going on; nothing but a call ever does. */
  lemma UnthrottledStarts(b: Boot, cfg: Settings, run: seq<Timed>, n: nat)
    requires n < |run| && !(run[n].event.Call? && Throttled(run[n].event.options))
    ensures Starts(b, cfg, run, n) <==> Reaches(run[n].event)
  {
  }

  /**
   Over every run from the beginning: the library is bootstrapped exactly if a new config was announced, from a file or
   not, and nothing has started it over since.
   */
  lemma {:induction false} BootstrappedIff(cfg: Settings, run: seq<Timed>)
    ensures After(Start(), cfg, run).state.Bootstrapped? <==>
            exists i :: 0 <= i < |run| && run[i].event.Listen? && run[i].event.newConfig &&
                        forall k :: i < k < |run| ==> !Resets(run[k].event)
    ensures !After(Start(), cfg, run).state.InitialTriggered?
  {
    if run != [] {
      var n := |run| - 1;
      BootstrappedIff(cfg, run[..n]);
      StateStep(After(Start(), cfg, run[..n]), cfg, run[n].event, run[n].now);
      assert forall k :: 0 <= k < n ==> run[..n][k] == run[k];
    }
  }

  lemma StateStep(s: Boot, cfg: Settings, e: Event, now: int)
    requires !s.state.InitialTriggered?
    ensures Step(s, cfg, e, now).0.state ==
            if Resets(e) then InitialPre else if e.Listen? && e.newConfig then Bootstrapped else s.state
  {
  }

  /**
   Error-counting calls within the delay: exactly the one that brings the counter to the threshold starts a refresh.
   */
  lemma {:induction false} ErrorsBreakThrottle(b: Boot, cfg: Settings, run: seq<Timed>, i: nat)
    requires i < |run| && b.errcounter + i < cfg.threshold
    requires forall k :: 0 <= k < |run| ==> Counts(run[k].event)
    requires forall k :: 0 <= k < |run| ==> run[k].now < b.lastRefresh + 1000 * cfg.delay
    ensures Starts(b, cfg, run, i) <==> b.errcounter + i + 1 == cfg.threshold
    ensures After(b, cfg, run[..i]) == b.(errcounter := b.errcounter + i)
  {
    if i > 0 {
      ErrorsBreakThrottle(b, cfg, run, i - 1);
      assert run[..i][..i - 1] == run[..i - 1];
    }
  }

  // ---------------------------------------------------------------- the class

  class Bootstrap {
    var state: State
    var lastRefresh: int
    var errcounter: nat
    const cfg: Settings

    function Now(): Boot
      reads this
    {
      Boot(state, lastRefresh, errcounter)
    }

    constructor (cfg: Settings)
      ensures Now() == Start() && this.cfg == cfg
    {
      state, lastRefresh, errcounter := InitialPre, 0, 0;
      this.cfg := cfg;
    }

    /** Bootstrap::bootstrap */
    method Request(options: bv8, refreshing: bool, now: int) returns (started: bool)
      modifies this
      ensures (Now(), started) == Step(old(Now()), cfg, Call(options, refreshing), now)
    {
      if options == REFRESH_OPEN_BUCKET {
        state := InitialPre;
      } else if refreshing {
        return false;
      }
      if options & REFRESH_THROTTLE != 0 {
        if options & REFRESH_INCRERR != 0 {
          errcounter := errcounter + 1;
        }
        var next := lastRefresh + 1000 * cfg.delay;
        if now < next && errcounter < cfg.threshold {
          return false;
        }
      }
      if options == REFRESH_INITIAL {
        state := InitialPre;
      }
      errcounter := 0;
      if options != REFRESH_INITIAL {
        lastRefresh := now;
      }
      started := true;
    }

    /** Bootstrap::config_callback */
    method ConfigCallback(newConfig: bool, file: bool, now: int)
      modifies this
      ensures Now() == if newConfig then NewConfig(old(Now()), file, now) else old(Now())
    {
      if !newConfig {
        return;
      }
      if state.InitialPre? {
        state := InitialTriggered;
      }
      if !file {
        lastRefresh := now;
        errcounter := 0;
      }
      if !state.Bootstrapped? {
        state := Bootstrapped;
      }
    }

    /** Bootstrap::clconfig_lsn; the result says whether the timer is signalled. */
    method ClconfigListener(newConfig: bool, file: bool, now: int) returns (signalled: bool)
      modifies this
      ensures Now() == Step(old(Now()), cfg, Listen(newConfig, file), now).0
      ensures signalled <==> old(!state.InitialPre?) && newConfig
    {
      signalled := false;
      if state.InitialPre? {
        ConfigCallback(newConfig, file, now);
      } else if newConfig {
        signalled := true;
      }
    }

    /** Bootstrap::timer_dispatch; the result says whether the initial bootstrap failed. */
    method TimerDispatch(config: bool, file: bool, now: int) returns (failed: bool)
      modifies this
      ensures Now() == Step(old(Now()), cfg, Dispatch(config, file), now).0
      ensures failed <==> old(state.InitialPre?)
    {
      failed := false;
      if !state.InitialPre? {
        if config {
          ConfigCallback(true, file, now);
        }
      } else {
        failed := true;
      }
    }
  }
}
