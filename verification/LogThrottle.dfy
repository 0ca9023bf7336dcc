/** The log throttle of the Bevy integration (crates/zbierak-sdk/src/bevy.rs):
    rate windows, duplicate suppression and the bounded table, over whole runs. */
module LogThrottle {
  import opened Text
  import Runs

  datatype Config = Config(rateWindow: nat, maxEvents: nat, duplicateSuppression: nat, maxTracked: nat)

  /** A captured log: when it is processed and whether the client takes it. */
  datatype Log = Log(message: string, now: int, queued: bool)

  datatype State = State(lastSent: map<string, int>, windowStart: Option<int>, sent: nat, dropped: nat)

  /** One accepted log: its window (by number and start) and whether accepting
      it emptied the duplicate table. */
  datatype Accept = Accept(message: string, at: int, epoch: nat, window: int, cleared: bool)

  datatype History = History(state: State, epoch: nat, accepts: seq<Accept>)

  const START := History(State(map[], None, 0, 0), 0, [])

  /** The window bookkeeping done before a log is judged. */
  function Rolled(cfg: Config, h: History, now: int): History {
    if h.state.windowStart.Some? && now - h.state.windowStart.value < cfg.rateWindow then h
    else h.(state := h.state.(windowStart := Some(now), sent := 0, dropped := 0), epoch := h.epoch + 1)
  }

  predicate Suppressed(cfg: Config, s: State, log: Log) {
    log.message in s.lastSent && log.now - s.lastSent[log.message] < cfg.duplicateSuppression
  }

  function Step(cfg: Config, before: History, log: Log): History {
    var h := Rolled(cfg, before, log.now);
    var s := h.state;
    if s.sent >= cfg.maxEvents then h.(state := s.(dropped := s.dropped + 1))
    else if Suppressed(cfg, s, log) || !log.queued then h
    else
      var cleared := |s.lastSent| >= cfg.maxTracked;
      var table := if cleared then map[] else s.lastSent;
      History(
        s.(sent := s.sent + 1, lastSent := table[log.message := log.now]),
        h.epoch,
        h.accepts + [Accept(log.message, log.now, h.epoch,
                            if s.windowStart.Some? then s.windowStart.value else log.now, cleared)])
  }

  function After(cfg: Config, start: History, run: seq<Log>): History {
    if run == [] then start else Step(cfg, After(cfg, start, run[..|run| - 1]), run[|run| - 1])
  }

  function Messages(accepts: seq<Accept>): seq<string> {
    seq(|accepts|, i requires 0 <= i < |accepts| => accepts[i].message)
  }

  class Throttle {
    var lastSent: map<string, int>
    var windowStart: Option<int>
    var sentInWindow: nat
    var droppedInWindow: nat
    ghost var epoch: nat
    ghost var accepts: seq<Accept>

    ghost function View(): History
      reads this
    {
      History(State(lastSent, windowStart, sentInWindow, droppedInWindow), epoch, accepts)
    }

    constructor ()
      ensures View() == START
    {
      lastSent, windowStart, sentInWindow, droppedInWindow := map[], None, 0, 0;
      epoch, accepts := 0, [];
    }

    /** Drains a batch of captured logs; returns the messages handed on. */
    method ProcessCaptured(cfg: Config, logs: seq<Log>) returns (handedOn: seq<string>)
      modifies this
      ensures View() == After(cfg, old(View()), logs)
      ensures Messages(accepts) == Messages(old(accepts)) + handedOn
    {
      handedOn := [];
      for k := 0 to |logs|
        invariant View() == After(cfg, old(View()), logs[..k])
        invariant Messages(accepts) == Messages(old(accepts)) + handedOn
      {
        assert logs[..k + 1][..k] == logs[..k];
        var accepted := Process(cfg, logs[k]);
        if accepted { handedOn := handedOn + [logs[k].message]; }
      }
      assert logs[..|logs|] == logs;
    }

    /** Opens a new window when the current one is over. */
    method RollWindow(cfg: Config, now: int)
      modifies `windowStart, `sentInWindow, `droppedInWindow, `epoch
      ensures View() == Rolled(cfg, old(View()), now) && windowStart.Some?
    {
      if windowStart.None? || now - windowStart.value >= cfg.rateWindow {
        windowStart, sentInWindow, droppedInWindow := Some(now), 0, 0;
        epoch := epoch + 1;
      }
    }

    /** One pass of the drain loop. */
    method Process(cfg: Config, captured: Log) returns (accepted: bool)
      modifies this
      ensures View() == Step(cfg, old(View()), captured)
      ensures Messages(accepts) == Messages(old(accepts)) + (if accepted then [captured.message] else [])
    {
      RollWindow(cfg, captured.now);
      if sentInWindow >= cfg.maxEvents {
        droppedInWindow := droppedInWindow + 1;
        return false;
      }
      if captured.message in lastSent
        && captured.now - lastSent[captured.message] < cfg.duplicateSuppression {
        return false;
      }
      if !captured.queued {
        return false;
      }
      sentInWindow := sentInWindow + 1;
      var clear := |lastSent| >= cfg.maxTracked;
      if clear { lastSent := map[]; }
      lastSent := lastSent[captured.message := captured.now];
      accepts := accepts + [Accept(captured.message, captured.now, epoch, windowStart.value, clear)];
      return true;
    }
  }

  // ---- Invariants over runs ----------------------------------------------

  ghost predicate Monotone(run: seq<Log>) {
    forall i, j | 0 <= i < j < |run| :: run[i].now <= run[j].now
  }

  /** Accepts sit inside their windows, and windows of different number are at
      least a window length apart. */
  ghost predicate Windowed(cfg: Config, accepts: seq<Accept>) {
    && (forall i | 0 <= i < |accepts| ::
          var a := accepts[i];
          a.window <= a.at && (a.at == a.window || a.at - a.window < cfg.rateWindow))
    && (forall i, j | 0 <= i < j < |accepts| ::
          accepts[i].at <= accepts[j].at && FollowsWindow(cfg, accepts[i].epoch, accepts[i].window,
                                                          accepts[j].epoch, accepts[j].window))
    && (forall i, j | 0 <= i && j == i + cfg.maxEvents && j < |accepts| :: accepts[i].epoch < accepts[j].epoch)
    && (cfg.maxEvents == 0 ==> accepts == [])
  }

  ghost predicate FollowsWindow(cfg: Config, epoch: nat, window: int, laterEpoch: nat, laterWindow: int) {
    || (epoch == laterEpoch && window == laterWindow)
    || (epoch < laterEpoch && window + cfg.rateWindow <= laterWindow)
  }

  /** The counters describe the accepts made in the current window. */
  ghost predicate Current(cfg: Config, h: History, clock: int) {
    var n := |h.accepts|;
    && h.state.sent <= n && h.state.sent <= cfg.maxEvents
    && (forall i | 0 <= i < n :: h.accepts[i].at <= clock)
    && (h.state.windowStart.None? ==> n == 0)
    && (h.state.windowStart.Some? ==>
          && h.state.windowStart.value <= clock
          && forall i | 0 <= i < n ::
               FollowsWindow(cfg, h.accepts[i].epoch, h.accepts[i].window, h.epoch, h.state.windowStart.value))
    && (forall i | 0 <= i < n - h.state.sent :: h.accepts[i].epoch < h.epoch)
  }

  lemma RolledCurrent(cfg: Config, h: History, clock: int, now: int)
    requires Current(cfg, h, clock) && clock <= now
    ensures Current(cfg, Rolled(cfg, h, now), now)
    ensures Rolled(cfg, h, now).accepts == h.accepts && Rolled(cfg, h, now).state.windowStart.Some?
    ensures var w := Rolled(cfg, h, now).state.windowStart.value;
            w <= now && (now == w || now - w < cfg.rateWindow)
  {
  }

  lemma WindowedSnoc(cfg: Config, accepts: seq<Accept>, sent: nat, a: Accept)
    requires Windowed(cfg, accepts) && sent <= |accepts| && sent < cfg.maxEvents
    requires a.window <= a.at && (a.at == a.window || a.at - a.window < cfg.rateWindow)
    requires forall i | 0 <= i < |accepts| ::
               accepts[i].at <= a.at && FollowsWindow(cfg, accepts[i].epoch, accepts[i].window, a.epoch, a.window)
    requires forall i | 0 <= i < |accepts| - sent :: accepts[i].epoch < a.epoch
    ensures Windowed(cfg, accepts + [a])
  {
    var n, after := |accepts|, accepts + [a];
    forall i, j | 0 <= i && j == i + cfg.maxEvents && j < n + 1 ensures after[i].epoch < after[j].epoch {
      if j == n { assert i < n - sent; }
    }
  }

  lemma CurrentSnoc(cfg: Config, h: History, after: History, a: Accept)
    requires Current(cfg, h, a.at) && h.state.sent < cfg.maxEvents && h.state.windowStart == Some(a.window)
    requires a.epoch == h.epoch == after.epoch && after.accepts == h.accepts + [a]
    requires after.state.sent == h.state.sent + 1 && after.state.windowStart == h.state.windowStart
    ensures Current(cfg, after, a.at)
  {
  }

  lemma StepWindowed(cfg: Config, h: History, clock: int, log: Log)
    requires Windowed(cfg, h.accepts) && Current(cfg, h, clock) && clock <= log.now
    ensures Windowed(cfg, Step(cfg, h, log).accepts) && Current(cfg, Step(cfg, h, log), log.now)
  {
    RolledCurrent(cfg, h, clock, log.now);
    var r, after, n := Rolled(cfg, h, log.now), Step(cfg, h, log), |h.accepts|;
    if |after.accepts| > n {
      var a := after.accepts[n];
      assert after.accepts == h.accepts + [a] && a.epoch == r.epoch == after.epoch && a.at == log.now
             && a.window == r.state.windowStart.value && after.state.windowStart == r.state.windowStart;
      WindowedSnoc(cfg, h.accepts, r.state.sent, a);
      CurrentSnoc(cfg, r, after, a);
    } else {
      assert after.accepts == r.accepts && after.epoch == r.epoch
             && after.state == r.state.(dropped := after.state.dropped);
    }
  }

  lemma {:induction false} RunWindowed(cfg: Config, run: seq<Log>)
    requires Monotone(run)
    ensures var h := After(cfg, START, run);
            Windowed(cfg, h.accepts) && (run != [] ==> Current(cfg, h, run[|run| - 1].now))
  {
    if run != [] {
      var before := run[..|run| - 1];
      RunWindowed(cfg, before);
      var h, log := After(cfg, START, before), run[|run| - 1];
      if before == [] {
        assert Current(cfg, START, log.now);
        StepWindowed(cfg, START, log.now, log);
      } else {
        StepWindowed(cfg, h, before[|before| - 1].now, log);
      }
    }
  }

  // ---- Rate bounds -------------------------------------------------------

  /** How many accepts fall into [from, until). */
  function CountBetween(accepts: seq<Accept>, from: int, until: int): nat {
    if accepts == [] then 0
    else CountBetween(accepts[..|accepts| - 1], from, until)
         + (if from <= accepts[|accepts| - 1].at < until then 1 else 0)
  }

  lemma {:induction false} CountSpread(accepts: seq<Accept>, from: int, until: int) returns (i: nat, j: nat)
    requires CountBetween(accepts, from, until) > 0
    ensures i <= j < |accepts| && CountBetween(accepts, from, until) <= j - i + 1
    ensures from <= accepts[i].at < until && from <= accepts[j].at < until
  {
    var last := |accepts| - 1;
    if CountBetween(accepts[..last], from, until) > 0 {
      i, j := CountSpread(accepts[..last], from, until);
      if from <= accepts[last].at < until { j := last; }
    } else {
      i, j := last, last;
    }
  }

  lemma EpochsApart(cfg: Config, accepts: seq<Accept>, i: nat, j: nat)
    requires Windowed(cfg, accepts) && i + cfg.maxEvents <= j < |accepts|
    ensures accepts[i].epoch < accepts[j].epoch
  {
    var k := i + cfg.maxEvents;
    assert accepts[i].epoch < accepts[k].epoch;
    assert k == j || FollowsWindow(cfg, accepts[k].epoch, accepts[k].window, accepts[j].epoch, accepts[j].window);
  }

  /** One window never holds more than the maximum. */
  lemma WindowBound(cfg: Config, run: seq<Log>, i: nat, j: nat)
    requires Monotone(run) && i <= j < |After(cfg, START, run).accepts|
    requires After(cfg, START, run).accepts[i].epoch == After(cfg, START, run).accepts[j].epoch
    ensures j - i + 1 <= cfg.maxEvents
  {
    RunWindowed(cfg, run);
    if j - i >= cfg.maxEvents { EpochsApart(cfg, After(cfg, START, run).accepts, i, j); }
  }

  lemma TwoWindowsApart(cfg: Config, accepts: seq<Accept>, i: nat, j: nat)
    requires Windowed(cfg, accepts) && cfg.maxEvents > 0 && i + 2 * cfg.maxEvents <= j < |accepts|
    ensures accepts[j].at >= accepts[i].at + cfg.rateWindow
  {
    var k := i + cfg.maxEvents;
    EpochsApart(cfg, accepts, i, k);
    EpochsApart(cfg, accepts, k, j);
    assert FollowsWindow(cfg, accepts[i].epoch, accepts[i].window, accepts[k].epoch, accepts[k].window);
    assert FollowsWindow(cfg, accepts[k].epoch, accepts[k].window, accepts[j].epoch, accepts[j].window);
  }

  lemma RollingBoundOf(cfg: Config, accepts: seq<Accept>, from: int)
    requires Windowed(cfg, accepts)
    ensures CountBetween(accepts, from, from + cfg.rateWindow) <= 2 * cfg.maxEvents
  {
    if cfg.maxEvents > 0 && CountBetween(accepts, from, from + cfg.rateWindow) > 2 * cfg.maxEvents {
      var i, j := CountSpread(accepts, from, from + cfg.rateWindow);
      TwoWindowsApart(cfg, accepts, i, j);
    }
  }

  /** Any interval one window long holds at most twice the maximum. */
  lemma RollingBound(cfg: Config, run: seq<Log>, from: int)
    requires Monotone(run)
    ensures CountBetween(After(cfg, START, run).accepts, from, from + cfg.rateWindow) <= 2 * cfg.maxEvents
  {
    RunWindowed(cfg, run);
    RollingBoundOf(cfg, After(cfg, START, run).accepts, from);
  }

  // ---- The documented rolling bound --------------------------------------

  ghost predicate KeepsMaximum(cfg: Config, run: seq<Log>, from: int) {
    CountBetween(After(cfg, START, run).accepts, from, from + cfg.rateWindow) <= cfg.maxEvents
  }

  /** The maximum itself as a rolling bound, as the configuration describes it. */
  ghost predicate RollingMaximum(cfg: Config) {
    forall run: seq<Log>, from: int | Monotone(run) :: KeepsMaximum(cfg, run, from)
  }

  function Name(k: nat): string {
    seq(k, _ => 'x')
  }

  /** `n` fresh messages at one instant. */
  function Burst(n: nat, now: int, offset: nat): seq<Log> {
    if n == 0 then [] else Burst(n - 1, now, offset) + [Log(Name(offset + n), now, true)]
  }

  ghost predicate KnowsAtMost(s: State, k: nat) {
    forall m | m in s.lastSent :: |m| <= k
  }

  lemma AfterAppend(cfg: Config, h: History, a: seq<Log>, log: Log)
    ensures After(cfg, h, a + [log]) == Step(cfg, After(cfg, h, a), log)
  {
  }

  /** `later` holds `n` accepts more than `earlier` in every interval around `now`. */
  ghost predicate Grew(earlier: seq<Accept>, later: seq<Accept>, now: int, n: nat) {
    forall from, until | from <= now < until ::
      CountBetween(later, from, until) == CountBetween(earlier, from, until) + n
  }

  /** `h` continues `b`'s window at `now` with `n` more accepts. */
  ghost predicate Filled(cfg: Config, b: History, h: History, now: int, n: nat) {
    var r := Rolled(cfg, b, now);
    && h.state.sent == r.state.sent + n && h.state.windowStart == r.state.windowStart
    && Rolled(cfg, h, now) == h && Grew(b.accepts, h.accepts, now, n)
  }

  /** A fresh message is accepted when the window has room. */
  lemma FreshAccepted(cfg: Config, h: History, now: int, k: nat)
    requires cfg.rateWindow > 0
    requires Rolled(cfg, h, now).state.sent < cfg.maxEvents && KnowsAtMost(Rolled(cfg, h, now).state, k)
    ensures var after := Step(cfg, h, Log(Name(k + 1), now, true));
            Filled(cfg, h, after, now, 1) && KnowsAtMost(after.state, k + 1)
  {
  }

  lemma FilledMore(cfg: Config, b: History, h: History, after: History, now: int, n: nat)
    requires Filled(cfg, b, h, now, n) && Filled(cfg, h, after, now, 1)
    ensures Filled(cfg, b, after, now, n + 1)
  {
  }

  /** `after` is `b` with `n` fresh messages accepted at `now`. */
  ghost predicate Bursted(cfg: Config, b: History, after: History, now: int, n: nat, k: nat) {
    Filled(cfg, b, after, now, n) && KnowsAtMost(after.state, k + n)
  }

  lemma BurstedMore(cfg: Config, b: History, h: History, now: int, n: nat, k: nat)
    requires cfg.rateWindow > 0 && Rolled(cfg, b, now).state.sent + n < cfg.maxEvents && Bursted(cfg, b, h, now, n, k)
    ensures Bursted(cfg, b, Step(cfg, h, Log(Name(k + n + 1), now, true)), now, n + 1, k)
  {
    FreshAccepted(cfg, h, now, k + n);
    FilledMore(cfg, b, h, Step(cfg, h, Log(Name(k + n + 1), now, true)), now, n);
  }

  lemma BurstBegins(cfg: Config, h: History, n: nat, now: int, k: nat)
    requires cfg.rateWindow > 0 && n == 1
    requires Rolled(cfg, h, now).state.sent < cfg.maxEvents && KnowsAtMost(Rolled(cfg, h, now).state, k)
    ensures Bursted(cfg, h, After(cfg, h, Burst(n, now, k)), now, n, k)
  {
    FreshAccepted(cfg, h, now, k);
    assert Burst(0, now, k) == [];
    AfterAppend(cfg, h, [], Log(Name(k + 1), now, true));
  }

  lemma BurstContinues(cfg: Config, h: History, n: nat, now: int, k: nat)
    requires cfg.rateWindow > 0 && n > 1 && Rolled(cfg, h, now).state.sent + n <= cfg.maxEvents
    requires Bursted(cfg, h, After(cfg, h, Burst(n - 1, now, k)), now, n - 1, k)
    ensures Bursted(cfg, h, After(cfg, h, Burst(n, now, k)), now, n, k)
  {
    BurstedMore(cfg, h, After(cfg, h, Burst(n - 1, now, k)), now, n - 1, k);
    AfterAppend(cfg, h, Burst(n - 1, now, k), Log(Name(k + n), now, true));
    assert Burst(n, now, k) == Burst(n - 1, now, k) + [Log(Name(k + n), now, true)];
  }

  /** A burst is accepted whole while the window has room for it. */
  lemma {:induction false} BurstAccepted(cfg: Config, h: History, n: nat, now: int, k: nat)
    requires cfg.rateWindow > 0 && n >= 1
    requires Rolled(cfg, h, now).state.sent + n <= cfg.maxEvents && KnowsAtMost(Rolled(cfg, h, now).state, k)
    ensures Bursted(cfg, h, After(cfg, h, Burst(n, now, k)), now, n, k)
  {
    if n == 1 {
      BurstBegins(cfg, h, n, now, k);
    } else {
      BurstAccepted(cfg, h, n - 1, now, k);
      BurstContinues(cfg, h, n, now, k);
    }
  }

  lemma AfterConcat(cfg: Config, h: History, a: seq<Log>, b: seq<Log>)
    ensures After(cfg, h, a + b) == After(cfg, After(cfg, h, a), b)
  {
    Runs.Concat((g: History, run: seq<Log>) => After(cfg, g, run), (g: History, c: Log) => Step(cfg, g, c), h, a, b);
  }

  lemma {:induction false} BurstTimes(n: nat, now: int, k: nat)
    ensures |Burst(n, now, k)| == n && forall i | 0 <= i < n :: Burst(n, now, k)[i].now == now
  {
    if n > 0 { BurstTimes(n - 1, now, k); }
  }

  /** A window opened early, filled at its very end, and the next one filled at
      once: twice the maximum within two ticks. */
  function Straddle(cfg: Config): seq<Log> {
    [Log("", 0, false)] + Burst(cfg.maxEvents, cfg.rateWindow - 1, 0)
    + Burst(cfg.maxEvents, cfg.rateWindow, cfg.maxEvents)
  }

  lemma StraddleOpening(cfg: Config)
    requires cfg.maxEvents > 0
    ensures After(cfg, START, [Log("", 0, false)]) == History(State(map[], Some(0), 0, 0), 1, [])
  {
  }

  lemma StraddleMonotone(cfg: Config)
    requires cfg.rateWindow > 1
    ensures Monotone(Straddle(cfg))
  {
    BurstTimes(cfg.maxEvents, cfg.rateWindow - 1, 0);
    BurstTimes(cfg.maxEvents, cfg.rateWindow, cfg.maxEvents);
  }

  lemma StraddleDoubles(cfg: Config)
    requires cfg.maxEvents > 0 && cfg.rateWindow > 1
    ensures CountBetween(After(cfg, START, Straddle(cfg)).accepts, cfg.rateWindow - 1,
                         cfg.rateWindow - 1 + cfg.rateWindow) == 2 * cfg.maxEvents
  {
    var m, w := cfg.maxEvents, cfg.rateWindow;
    var a, b := Burst(m, w - 1, 0), Burst(m, w, m);
    StraddleOpening(cfg);
    var begun := History(State(map[], Some(0), 0, 0), 1, []);
    BurstAccepted(cfg, begun, m, w - 1, 0);
    var full := After(cfg, begun, a);
    BurstAccepted(cfg, full, m, w, m);
    AfterConcat(cfg, START, [Log("", 0, false)], a);
    AfterConcat(cfg, START, [Log("", 0, false)] + a, b);
    var done := After(cfg, full, b);
    assert CountBetween(full.accepts, w - 1, w - 1 + w) == CountBetween(begun.accepts, w - 1, w - 1 + w) + m;
    assert CountBetween(done.accepts, w - 1, w - 1 + w) == CountBetween(full.accepts, w - 1, w - 1 + w) + m;
  }

  lemma SingleTickKeeps(cfg: Config, run: seq<Log>, from: int)
    requires Monotone(run) && (cfg.maxEvents == 0 || cfg.rateWindow <= 1)
    ensures KeepsMaximum(cfg, run, from)
  {
    var accepts := After(cfg, START, run).accepts;
    if CountBetween(accepts, from, from + cfg.rateWindow) > 0 {
      var i, j := CountSpread(accepts, from, from + cfg.rateWindow);
      SingleTick(cfg, run, i, j);
    }
  }

  /** The rolling maximum is kept exactly by configurations in which it cannot
      matter: nothing is let through, or a window is a single tick. */
  lemma RollingMaximumExactly(cfg: Config)
    ensures RollingMaximum(cfg) <==> cfg.maxEvents == 0 || cfg.rateWindow <= 1
  {
    if cfg.maxEvents == 0 || cfg.rateWindow <= 1 {
      forall run: seq<Log>, from: int | Monotone(run) ensures KeepsMaximum(cfg, run, from) {
        SingleTickKeeps(cfg, run, from);
      }
    } else {
      StraddleMonotone(cfg);
      StraddleDoubles(cfg);
      assert !KeepsMaximum(cfg, Straddle(cfg), cfg.rateWindow - 1);
    }
  }

  lemma SingleTick(cfg: Config, run: seq<Log>, i: nat, j: nat)
    requires Monotone(run) && i <= j < |After(cfg, START, run).accepts| && (cfg.maxEvents == 0 || cfg.rateWindow <= 1)
    requires After(cfg, START, run).accepts[j].at - After(cfg, START, run).accepts[i].at < cfg.rateWindow
    ensures j - i + 1 <= cfg.maxEvents
  {
    RunWindowed(cfg, run);
    var accepts := After(cfg, START, run).accepts;
    assert i == j || FollowsWindow(cfg, accepts[i].epoch, accepts[i].window, accepts[j].epoch, accepts[j].window);
    WindowBound(cfg, run, i, j);
  }

  // ---- Duplicate suppression ---------------------------------------------

  function Clears(accepts: seq<Accept>): nat {
    if accepts == [] then 0
    else Clears(accepts[..|accepts| - 1]) + (if accepts[|accepts| - 1].cleared then 1 else 0)
  }

  /** The table entries that clearings have paid for. */
  function Discarded(accepts: seq<Accept>, tracked: nat): nat {
    if accepts == [] then 0
    else Discarded(accepts[..|accepts| - 1], tracked) + (if accepts[|accepts| - 1].cleared then tracked else 0)
  }

  lemma {:induction false} DiscardedIsProduct(accepts: seq<Accept>, tracked: nat)
    ensures Discarded(accepts, tracked) == Clears(accepts) * tracked
  {
    if accepts != [] {
      var before := accepts[..|accepts| - 1];
      DiscardedIsProduct(before, tracked);
      assert (Clears(before) + 1) * tracked == Clears(before) * tracked + tracked;
    }
  }

  /** No accept after the i-th emptied the table. */
  ghost predicate Kept(accepts: seq<Accept>, i: nat) {
    forall k | i < k < |accepts| :: !accepts[k].cleared
  }

  /** Equal messages closer than the suppression time have a clearing accept
      strictly between them. */
  ghost predicate Spaced(cfg: Config, accepts: seq<Accept>) {
    forall i, j | 0 <= i < j < |accepts| && accepts[i].message == accepts[j].message
                  && accepts[j].at - accepts[i].at < cfg.duplicateSuppression ::
      exists k :: i < k < j && accepts[k].cleared
  }

  /** Every accept since the last clearing still has its entry. */
  ghost predicate EntriesKept(h: History) {
    forall i | 0 <= i < |h.accepts| && Kept(h.accepts, i) ::
      h.accepts[i].message in h.state.lastSent && h.state.lastSent[h.accepts[i].message] >= h.accepts[i].at
  }

  /** Every entry stems from an accept. */
  ghost predicate EntriesAccepted(h: History) {
    forall m | m in h.state.lastSent ::
      exists i :: 0 <= i < |h.accepts| && h.accepts[i].message == m && h.accepts[i].at == h.state.lastSent[m]
  }

  ghost predicate Amortised(cfg: Config, h: History) {
    && |h.state.lastSent| <= (if cfg.maxTracked > 1 then cfg.maxTracked else 1)
    && Discarded(h.accepts, cfg.maxTracked) + |h.state.lastSent| <= |h.accepts|
  }

  ghost predicate TableMatches(cfg: Config, h: History) {
    EntriesKept(h) && EntriesAccepted(h) && Amortised(cfg, h)
  }

  /** What an accepting step appends, and what it does to the table. */
  ghost predicate Accepts(cfg: Config, h: History, after: History, a: Accept) {
    && after.accepts == h.accepts + [a]
    && a.cleared == (|h.state.lastSent| >= cfg.maxTracked)
    && after.state.lastSent == (if a.cleared then map[] else h.state.lastSent)[a.message := a.at]
    && !(a.message in h.state.lastSent && a.at - h.state.lastSent[a.message] < cfg.duplicateSuppression)
  }

  lemma StepCases(cfg: Config, h: History, log: Log) returns (a: Accept)
    ensures var after := Step(cfg, h, log);
            || (after.accepts == h.accepts && after.state.lastSent == h.state.lastSent)
            || (a.at == log.now && Accepts(cfg, h, after, a))
  {
    var r := Rolled(cfg, h, log.now);
    a := Accept(log.message, log.now, r.epoch,
                if r.state.windowStart.Some? then r.state.windowStart.value else log.now,
                |h.state.lastSent| >= cfg.maxTracked);
  }

  /** No accept is from the future. */
  ghost predicate Past(accepts: seq<Accept>, now: int) {
    forall i | 0 <= i < |accepts| :: accepts[i].at <= now
  }

  lemma StepTable(cfg: Config, h: History, log: Log)
    requires TableMatches(cfg, h) && Past(h.accepts, log.now)
    ensures TableMatches(cfg, Step(cfg, h, log))
  {
    var a := StepCases(cfg, h, log);
    var after := Step(cfg, h, log);
    if after.accepts != h.accepts {
      AcceptKeepsEntries(cfg, h, after, a);
      AcceptKeepsOrigins(cfg, h, after, a);
      AcceptKeepsSizes(cfg, h, after, a);
    }
  }

  lemma StepSpaced(cfg: Config, h: History, log: Log)
    requires EntriesKept(h) && Spaced(cfg, h.accepts)
    ensures Spaced(cfg, Step(cfg, h, log).accepts)
  {
    var a := StepCases(cfg, h, log);
    var after := Step(cfg, h, log);
    if after.accepts != h.accepts { AcceptSpaced(cfg, h, after, a); }
  }

  lemma AcceptKeepsSizes(cfg: Config, h: History, after: History, a: Accept)
    requires Amortised(cfg, h) && Accepts(cfg, h, after, a)
    ensures Amortised(cfg, after)
  {
  }

  lemma KeptEarlier(accepts: seq<Accept>, a: Accept, i: nat)
    requires i < |accepts| && Kept(accepts + [a], i)
    ensures Kept(accepts, i) && !a.cleared
  {
    var grown := accepts + [a];
    assert grown[|accepts|] == a;
    forall k | i < k < |accepts| ensures !accepts[k].cleared { assert grown[k] == accepts[k]; }
  }

  lemma AcceptKeepsEntries(cfg: Config, h: History, after: History, a: Accept)
    requires EntriesKept(h) && Accepts(cfg, h, after, a)
    requires Past(h.accepts, a.at)
    ensures EntriesKept(after)
  {
    forall i | 0 <= i < |after.accepts| && Kept(after.accepts, i)
      ensures after.accepts[i].message in after.state.lastSent
      ensures after.state.lastSent[after.accepts[i].message] >= after.accepts[i].at
    {
      if i < |h.accepts| {
        KeptEarlier(h.accepts, a, i);
        assert after.accepts[i] == h.accepts[i];
      }
    }
  }

  lemma AcceptKeepsOrigins(cfg: Config, h: History, after: History, a: Accept)
    requires EntriesAccepted(h) && Accepts(cfg, h, after, a)
    ensures EntriesAccepted(after)
  {
    forall m | m in after.state.lastSent
      ensures exists i :: 0 <= i < |after.accepts| && after.accepts[i].message == m
                          && after.accepts[i].at == after.state.lastSent[m]
    {
      if m == a.message {
        assert after.accepts[|h.accepts|] == a;
      } else {
        var i :| 0 <= i < |h.accepts| && h.accepts[i].message == m && h.accepts[i].at == h.state.lastSent[m];
        assert after.accepts[i] == h.accepts[i];
      }
    }
  }

  lemma AcceptSpaced(cfg: Config, h: History, after: History, a: Accept)
    requires EntriesKept(h) && Spaced(cfg, h.accepts) && Accepts(cfg, h, after, a)
    ensures Spaced(cfg, after.accepts)
  {
    var n := |h.accepts|;
    forall i, j | 0 <= i < j < |after.accepts| && after.accepts[i].message == after.accepts[j].message
                  && after.accepts[j].at - after.accepts[i].at < cfg.duplicateSuppression
      ensures exists k :: i < k < j && after.accepts[k].cleared
    {
      assert after.accepts[i] == h.accepts[i];
      if j < n {
        assert after.accepts[j] == h.accepts[j];
        var k :| i < k < j && h.accepts[k].cleared;
        assert after.accepts[k].cleared;
      } else {
        assert after.accepts[j] == a;
        assert !Kept(h.accepts, i);
        var k :| i < k < n && h.accepts[k].cleared;
        assert after.accepts[k].cleared;
      }
    }
  }

  lemma {:induction false} RunTable(cfg: Config, run: seq<Log>)
    requires Monotone(run)
    ensures TableMatches(cfg, After(cfg, START, run)) && Spaced(cfg, After(cfg, START, run).accepts)
  {
    if run != [] {
      var before, log := run[..|run| - 1], run[|run| - 1];
      RunTable(cfg, before);
      RunWindowed(cfg, before);
      StepTable(cfg, After(cfg, START, before), log);
      StepSpaced(cfg, After(cfg, START, before), log);
    }
  }

  /** Equal accepted messages too close together are always explained by a
      clearing accept between them; clearing is rare, and the table stays small. */
  lemma DuplicateSuppression(cfg: Config, run: seq<Log>)
    requires Monotone(run)
    ensures var h := After(cfg, START, run);
            && Spaced(cfg, h.accepts)
            && Clears(h.accepts) * cfg.maxTracked <= |h.accepts|
            && |h.state.lastSent| <= (if cfg.maxTracked > 1 then cfg.maxTracked else 1)
  {
    RunTable(cfg, run);
    DiscardedIsProduct(After(cfg, START, run).accepts, cfg.maxTracked);
  }

  /** Only a real repetition is suppressed: the same message was accepted less
      than the suppression time ago. */
  lemma SuppressedMeansRepeated(cfg: Config, run: seq<Log>, log: Log)
    requires Monotone(run) && Suppressed(cfg, After(cfg, START, run).state, log)
    ensures exists i :: 0 <= i < |After(cfg, START, run).accepts|
                        && After(cfg, START, run).accepts[i].message == log.message
                        && log.now - After(cfg, START, run).accepts[i].at < cfg.duplicateSuppression
  {
    RunTable(cfg, run);
    var h := After(cfg, START, run);
    var i :| 0 <= i < |h.accepts| && h.accepts[i].message == log.message
             && h.accepts[i].at == h.state.lastSent[log.message];
  }

  // ---- The documented suppression ----------------------------------------

  /** Equal accepted messages are at least the suppression time apart. */
  ghost predicate AllApart(cfg: Config, accepts: seq<Accept>) {
    forall i, j | 0 <= i < j < |accepts| && accepts[i].message == accepts[j].message ::
      accepts[j].at - accepts[i].at >= cfg.duplicateSuppression
  }

  ghost predicate KeepsApart(cfg: Config, run: seq<Log>) {
    AllApart(cfg, After(cfg, START, run).accepts)
  }

  /** Suppression as the configuration describes it. */
  ghost predicate SkipsRepeats(cfg: Config) {
    forall run: seq<Log> | Monotone(run) :: KeepsApart(cfg, run)
  }

  /** Three accepts, the least a forgotten message takes, do not fit into less
      than the suppression time. */
  predicate TooFewAccepts(cfg: Config) {
    || cfg.duplicateSuppression == 0 || cfg.maxEvents == 0
    || (cfg.rateWindow >= 1 && cfg.maxEvents == 2 && cfg.duplicateSuppression <= 1)
    || (cfg.rateWindow >= 1 && cfg.maxEvents == 1 && cfg.duplicateSuppression <= cfg.rateWindow + 1)
  }

  /** Accepts of different windows. */
  lemma WindowBetween(cfg: Config, accepts: seq<Accept>, i: nat, j: nat)
    requires Windowed(cfg, accepts) && cfg.maxEvents > 0 && i + cfg.maxEvents <= j < |accepts|
    ensures accepts[i].window + cfg.rateWindow <= accepts[j].window
  {
    EpochsApart(cfg, accepts, i, j);
    assert FollowsWindow(cfg, accepts[i].epoch, accepts[i].window, accepts[j].epoch, accepts[j].window);
  }

  lemma ThreeAccepts(cfg: Config, accepts: seq<Accept>, i: nat, k: nat, j: nat)
    requires Windowed(cfg, accepts) && TooFewAccepts(cfg) && i < k < j < |accepts|
    ensures accepts[j].at - accepts[i].at >= cfg.duplicateSuppression
  {
    assert accepts[i].at <= accepts[j].at;
    if cfg.maxEvents == 2 {
      WindowBetween(cfg, accepts, i, j);
    } else if cfg.maxEvents == 1 {
      WindowBetween(cfg, accepts, i, k);
      WindowBetween(cfg, accepts, k, j);
    }
  }

  lemma SpacedApart(cfg: Config, accepts: seq<Accept>)
    requires Windowed(cfg, accepts) && Spaced(cfg, accepts) && TooFewAccepts(cfg)
    ensures AllApart(cfg, accepts)
  {
    forall i, j | 0 <= i < j < |accepts| && accepts[i].message == accepts[j].message
      ensures accepts[j].at - accepts[i].at >= cfg.duplicateSuppression
    {
      if k :| i < k < j && accepts[k].cleared { ThreeAccepts(cfg, accepts, i, k, j); }
    }
  }

  lemma TooFewKeepsApart(cfg: Config, run: seq<Log>)
    requires Monotone(run) && TooFewAccepts(cfg)
    ensures KeepsApart(cfg, run)
  {
    RunWindowed(cfg, run);
    DuplicateSuppression(cfg, run);
    SpacedApart(cfg, After(cfg, START, run).accepts);
  }

  // ---- A forgotten message -----------------------------------------------

  /** A log that must be accepted, and what it leaves. */
  lemma Accepted(cfg: Config, h: History, m: string, now: int)
    requires Rolled(cfg, h, now).state.sent < cfg.maxEvents && m !in h.state.lastSent
    ensures var r, after := Rolled(cfg, h, now).state, Step(cfg, h, Log(m, now, true));
            && |after.accepts| == |h.accepts| + 1 && after.accepts[..|h.accepts|] == h.accepts
            && after.accepts[|h.accepts|].message == m && after.accepts[|h.accepts|].at == now
            && after.state.lastSent ==
               (if |h.state.lastSent| >= cfg.maxTracked then map[] else h.state.lastSent)[m := now]
            && after.state.sent == r.sent + 1 && after.state.windowStart == r.windowStart
  {
  }

  lemma AfterThree(cfg: Config, h: History, a: Log, b: Log, c: Log)
    ensures After(cfg, h, [a, b, c]) == Step(cfg, Step(cfg, Step(cfg, h, a), b), c)
  {
    AfterAppend(cfg, h, [], a);
    AfterAppend(cfg, h, [a], b);
    AfterAppend(cfg, h, [a, b], c);
    assert [] + [a] == [a] && [a] + [b] == [a, b] && [a, b] + [c] == [a, b, c];
  }

  /** The message, another one that clears the full table, the message again. */
  lemma Forgotten(cfg: Config, h: History, x: string, y: string, a: int, b: int, c: int)
    requires cfg.maxEvents > 0 && x != y && x !in h.state.lastSent && y !in h.state.lastSent
    requires |h.state.lastSent| + 1 >= cfg.maxTracked
    requires |h.state.lastSent| > 0 ==> |h.state.lastSent| < cfg.maxTracked
    requires Rolled(cfg, h, a).state.sent < cfg.maxEvents
    requires var first := Step(cfg, h, Log(x, a, true));
             && Rolled(cfg, first, b).state.sent < cfg.maxEvents
             && Rolled(cfg, Step(cfg, first, Log(y, b, true)), c).state.sent < cfg.maxEvents
    ensures var after := After(cfg, h, [Log(x, a, true), Log(y, b, true), Log(x, c, true)]);
            && |after.accepts| == |h.accepts| + 3
            && after.accepts[|h.accepts|].message == after.accepts[|h.accepts| + 2].message == x
            && after.accepts[|h.accepts|].at == a && after.accepts[|h.accepts| + 2].at == c
  {
    var first := Step(cfg, h, Log(x, a, true));
    Accepted(cfg, h, x, a);
    assert |first.state.lastSent| >= cfg.maxTracked && y !in first.state.lastSent;
    var second := Step(cfg, first, Log(y, b, true));
    Accepted(cfg, first, y, b);
    assert x !in second.state.lastSent;
    Accepted(cfg, second, x, c);
    AfterThree(cfg, h, Log(x, a, true), Log(y, b, true), Log(x, c, true));
  }

  /** When the k-th message of the filling comes: each in a window of its own. */
  function FillTime(cfg: Config, k: nat): nat {
    if k == 0 then 0 else FillTime(cfg, k - 1) + cfg.rateWindow
  }

  function Filling(cfg: Config, n: nat): seq<Log> {
    if n == 0 then [] else Filling(cfg, n - 1) + [Log(Name(n), FillTime(cfg, n), true)]
  }

  /** The table holds exactly `n` messages, none longer than `n`, and its last
      window opened when the last of them came. */
  ghost predicate FilledTable(cfg: Config, h: History, n: nat) {
    && |h.state.lastSent| == n && KnowsAtMost(h.state, n)
    && (n == 0 ==> h == START)
    && (n > 0 ==> h.state.windowStart == Some(FillTime(cfg, n)))
  }

  lemma {:induction false} FillsTable(cfg: Config, n: nat)
    requires cfg.maxEvents > 0 && (n > 0 ==> n < cfg.maxTracked)
    ensures FilledTable(cfg, After(cfg, START, Filling(cfg, n)), n)
  {
    if n > 0 {
      FillsTable(cfg, n - 1);
      var h, now := After(cfg, START, Filling(cfg, n - 1)), FillTime(cfg, n);
      assert |Name(n)| == n;
      assert Rolled(cfg, h, now).state.windowStart == Some(now) && Rolled(cfg, h, now).state.sent == 0;
      Accepted(cfg, h, Name(n), now);
      AfterAppend(cfg, START, Filling(cfg, n - 1), Log(Name(n), now, true));
    }
  }

  lemma MonotoneSnoc(run: seq<Log>, log: Log)
    requires Monotone(run) && (run != [] ==> run[|run| - 1].now <= log.now)
    ensures Monotone(run + [log])
  {
  }

  lemma {:induction false} FillingMonotone(cfg: Config, n: nat)
    ensures Monotone(Filling(cfg, n))
    ensures forall i | 0 <= i < |Filling(cfg, n)| :: Filling(cfg, n)[i].now <= FillTime(cfg, n)
  {
    if n > 0 {
      FillingMonotone(cfg, n - 1);
      MonotoneSnoc(Filling(cfg, n - 1), Log(Name(n), FillTime(cfg, n), true));
    }
  }

  /** A window opened by a log the client did not queue. */
  lemma Opened(cfg: Config, h: History, n: nat, m: string)
    requires FilledTable(cfg, h, n) && cfg.maxEvents > 0
    ensures var begun := Step(cfg, h, Log(m, FillTime(cfg, n + 1), false));
            && begun.state.lastSent == h.state.lastSent && begun.state.sent == 0
            && begun.state.windowStart == Some(FillTime(cfg, n + 1))
  {
    assert Rolled(cfg, h, FillTime(cfg, n + 1)).state.sent == 0;
  }

  /** The times of the three accepts, after a window opened at `open`. */
  datatype Times = Times(a: int, b: int, c: int)

  function Schedule(cfg: Config, open: int): Times {
    if cfg.rateWindow == 0 || cfg.maxEvents >= 3 then Times(open, open, open)
    else if cfg.maxEvents == 2 then
      Times(open + cfg.rateWindow - 1, open + cfg.rateWindow - 1, open + cfg.rateWindow)
    else Times(open + cfg.rateWindow - 1, open + cfg.rateWindow, open + 2 * cfg.rateWindow)
  }

  lemma ScheduleTight(cfg: Config, open: int)
    requires !TooFewAccepts(cfg)
    ensures var t := Schedule(cfg, open);
            open <= t.a <= t.b <= t.c && t.c - t.a < cfg.duplicateSuppression
  {
  }

  lemma ScheduleFits(cfg: Config, h: History, x: string, y: string)
    requires !TooFewAccepts(cfg) && h.state.windowStart.Some? && h.state.sent == 0
    requires x != y && x !in h.state.lastSent && y !in h.state.lastSent
    ensures var t := Schedule(cfg, h.state.windowStart.value);
            var first := Step(cfg, h, Log(x, t.a, true));
            && Rolled(cfg, h, t.a).state.sent < cfg.maxEvents
            && Rolled(cfg, first, t.b).state.sent < cfg.maxEvents
            && Rolled(cfg, Step(cfg, first, Log(y, t.b, true)), t.c).state.sent < cfg.maxEvents
  {
    var t := Schedule(cfg, h.state.windowStart.value);
    Accepted(cfg, h, x, t.a);
    var first := Step(cfg, h, Log(x, t.a, true));
    assert y !in first.state.lastSent;
    Accepted(cfg, first, y, t.b);
  }

  function FillCount(cfg: Config): nat {
    if cfg.maxTracked == 0 then 0 else cfg.maxTracked - 1
  }

  /** The table is filled but for one place, and a window opened. */
  function Prelude(cfg: Config): seq<Log> {
    Filling(cfg, FillCount(cfg)) + [Log("", FillTime(cfg, FillCount(cfg) + 1), false)]
  }

  function ThreeLogs(cfg: Config, x: string, y: string): seq<Log> {
    var t := Schedule(cfg, FillTime(cfg, FillCount(cfg) + 1));
    [Log(x, t.a, true), Log(y, t.b, true), Log(x, t.c, true)]
  }

  function Forgetting(cfg: Config): seq<Log> {
    Prelude(cfg) + ThreeLogs(cfg, Name(FillCount(cfg) + 1), Name(FillCount(cfg) + 2))
  }

  lemma PreludeMonotone(cfg: Config)
    ensures Monotone(Prelude(cfg))
    ensures Prelude(cfg)[|Prelude(cfg)| - 1].now == FillTime(cfg, FillCount(cfg) + 1)
  {
    FillingMonotone(cfg, FillCount(cfg));
    MonotoneSnoc(Filling(cfg, FillCount(cfg)), Log("", FillTime(cfg, FillCount(cfg) + 1), false));
  }

  lemma MonotoneThree(run: seq<Log>, a: Log, b: Log, c: Log)
    requires Monotone(run) && run != [] && run[|run| - 1].now <= a.now <= b.now <= c.now
    ensures Monotone(run + [a, b, c])
  {
    MonotoneSnoc(run, a);
    MonotoneSnoc(run + [a], b);
    MonotoneSnoc(run + [a] + [b], c);
    assert run + [a, b, c] == run + [a] + [b] + [c];
  }

  lemma ForgettingMonotone(cfg: Config)
    requires !TooFewAccepts(cfg)
    ensures Monotone(Forgetting(cfg))
  {
    PreludeMonotone(cfg);
    ScheduleTight(cfg, FillTime(cfg, FillCount(cfg) + 1));
    var three := ThreeLogs(cfg, Name(FillCount(cfg) + 1), Name(FillCount(cfg) + 2));
    MonotoneThree(Prelude(cfg), three[0], three[1], three[2]);
  }

  /** After the prelude a window is open and empty, and two names are unknown. */
  lemma PreludeReady(cfg: Config)
    requires cfg.maxEvents > 0
    ensures var n, begun := FillCount(cfg), After(cfg, START, Prelude(cfg));
            && begun.state.sent == 0 && begun.state.windowStart == Some(FillTime(cfg, n + 1))
            && |begun.state.lastSent| == n && KnowsAtMost(begun.state, n)
  {
    var n := FillCount(cfg);
    FillsTable(cfg, n);
    AfterAppend(cfg, START, Filling(cfg, n), Log("", FillTime(cfg, n + 1), false));
    Opened(cfg, After(cfg, START, Filling(cfg, n)), n, "");
  }

  lemma ThreeAccepted(cfg: Config, begun: History, x: string, y: string)
    requires !TooFewAccepts(cfg) && x != y && x !in begun.state.lastSent && y !in begun.state.lastSent
    requires begun.state.sent == 0 && begun.state.windowStart == Some(FillTime(cfg, FillCount(cfg) + 1))
    requires |begun.state.lastSent| == FillCount(cfg)
    ensures var after, i := After(cfg, begun, ThreeLogs(cfg, x, y)), |begun.accepts|;
            && |after.accepts| == i + 3 && after.accepts[i].message == after.accepts[i + 2].message
            && after.accepts[i + 2].at - after.accepts[i].at < cfg.duplicateSuppression
  {
    var t := Schedule(cfg, begun.state.windowStart.value);
    ScheduleTight(cfg, begun.state.windowStart.value);
    ScheduleFits(cfg, begun, x, y);
    Forgotten(cfg, begun, x, y, t.a, t.b, t.c);
  }

  lemma NotApart(cfg: Config, run: seq<Log>, i: nat)
    requires var accepts := After(cfg, START, run).accepts;
             && i + 2 < |accepts| && accepts[i].message == accepts[i + 2].message
             && accepts[i + 2].at - accepts[i].at < cfg.duplicateSuppression
    ensures !KeepsApart(cfg, run)
  {
  }

  /** The run accepts one message twice within the suppression time. */
  lemma ForgettingRepeats(cfg: Config)
    requires !TooFewAccepts(cfg)
    ensures !KeepsApart(cfg, Forgetting(cfg))
  {
    var x, y := Name(FillCount(cfg) + 1), Name(FillCount(cfg) + 2);
    var begun := After(cfg, START, Prelude(cfg));
    PreludeReady(cfg);
    assert |x| == FillCount(cfg) + 1 && |y| == FillCount(cfg) + 2;
    ThreeAccepted(cfg, begun, x, y);
    AfterConcat(cfg, START, Prelude(cfg), ThreeLogs(cfg, x, y));
    NotApart(cfg, Forgetting(cfg), |begun.accepts|);
  }

  /** The documented suppression is kept exactly by configurations that let too
      few logs through to forget one in time. */
  lemma SuppressionExactly(cfg: Config)
    ensures SkipsRepeats(cfg) <==> TooFewAccepts(cfg)
  {
    if TooFewAccepts(cfg) {
      forall run: seq<Log> | Monotone(run) ensures KeepsApart(cfg, run) { TooFewKeepsApart(cfg, run); }
    } else {
      ForgettingMonotone(cfg);
      ForgettingRepeats(cfg);
    }
  }
}
