/** Which logs the throttle accepts, said on what was accepted before and on times. */
module LogDecisions {
  import opened Text
  import opened LogThrottle

  // ---- Windows -----------------------------------------------------------

  /** A log at this time opens a new window. */
  predicate OpensWindow(cfg: Config, s: State, now: int) {
    s.windowStart.None? || s.windowStart.value + cfg.rateWindow <= now
  }

  function AcceptedIn(accepts: seq<Accept>, epoch: nat): nat {
    if accepts == [] then 0
    else AcceptedIn(accepts[..|accepts| - 1], epoch) + (if accepts[|accepts| - 1].epoch == epoch then 1 else 0)
  }

  /** The window that holds at this time takes one more. */
  predicate HasRoom(cfg: Config, h: History, now: int) {
    (if OpensWindow(cfg, h.state, now) then 0 else AcceptedIn(h.accepts, h.epoch)) < cfg.maxEvents
  }

  ghost predicate NoneAfter(accepts: seq<Accept>, epoch: nat) {
    forall a | a in accepts :: a.epoch <= epoch
  }

  lemma {:induction false} NoneLater(accepts: seq<Accept>, epoch: nat, later: nat)
    requires NoneAfter(accepts, epoch) && epoch < later
    ensures AcceptedIn(accepts, later) == 0
  {
    if accepts != [] { NoneLater(accepts[..|accepts| - 1], epoch, later); }
  }

  lemma AcceptedInMore(accepts: seq<Accept>, a: Accept, epoch: nat)
    ensures AcceptedIn(accepts + [a], epoch) == AcceptedIn(accepts, epoch) + (if a.epoch == epoch then 1 else 0)
  {
  }

  /** The counter counts the accepts of the window. */
  ghost predicate Counted(h: History) {
    h.state.sent == AcceptedIn(h.accepts, h.epoch) && NoneAfter(h.accepts, h.epoch)
  }

  // ---- Repetitions -------------------------------------------------------

  /** The message was accepted less than the suppression time ago, and the table
      was not cleared since. */
  ghost predicate Repeats(cfg: Config, accepts: seq<Accept>, message: string, now: int) {
    exists i :: 0 <= i < |accepts| && Kept(accepts, i) && accepts[i].message == message
                && now - accepts[i].at < cfg.duplicateSuppression
  }

  /** The messages accepted since the table was cleared. */
  ghost function Remembered(accepts: seq<Accept>): set<string> {
    set i | 0 <= i < |accepts| && Kept(accepts, i) :: accepts[i].message
  }

  /** Every entry is a remembered accept. */
  ghost predicate EntriesRemembered(h: History) {
    forall m | m in h.state.lastSent ::
      exists i :: 0 <= i < |h.accepts| && Kept(h.accepts, i) && h.accepts[i].message == m
                  && h.accepts[i].at == h.state.lastSent[m]
  }

  lemma KeptBefore(accepts: seq<Accept>, a: Accept, i: nat)
    requires i < |accepts| && Kept(accepts, i) && !a.cleared
    ensures Kept(accepts + [a], i)
  {
  }

  lemma AcceptRemembers(cfg: Config, h: History, after: History, a: Accept)
    requires EntriesRemembered(h) && Accepts(cfg, h, after, a)
    ensures EntriesRemembered(after)
  {
    forall m | m in after.state.lastSent
      ensures exists i :: 0 <= i < |after.accepts| && Kept(after.accepts, i) && after.accepts[i].message == m
                          && after.accepts[i].at == after.state.lastSent[m]
    {
      if m == a.message {
        assert after.accepts[|h.accepts|] == a && Kept(after.accepts, |h.accepts|);
      } else {
        var i :| 0 <= i < |h.accepts| && Kept(h.accepts, i) && h.accepts[i].message == m
                 && h.accepts[i].at == h.state.lastSent[m];
        KeptBefore(h.accepts, a, i);
        assert after.accepts[i] == h.accepts[i];
      }
    }
  }

  lemma TableIsRemembered(h: History)
    requires EntriesKept(h) && EntriesRemembered(h)
    ensures h.state.lastSent.Keys == Remembered(h.accepts)
  {
  }

  lemma SuppressedExactly(cfg: Config, h: History, log: Log)
    requires EntriesKept(h) && EntriesRemembered(h)
    ensures Suppressed(cfg, h.state, log) <==> Repeats(cfg, h.accepts, log.message, log.now)
  {
    if Suppressed(cfg, h.state, log) {
      var i :| 0 <= i < |h.accepts| && Kept(h.accepts, i) && h.accepts[i].message == log.message
               && h.accepts[i].at == h.state.lastSent[log.message];
      assert Repeats(cfg, h.accepts, log.message, log.now);
    }
  }

  // ---- Every run ---------------------------------------------------------

  ghost predicate Explained(h: History) {
    Counted(h) && EntriesKept(h) && EntriesRemembered(h)
  }

  lemma RolledCounted(cfg: Config, h: History, now: int)
    requires Counted(h)
    ensures Counted(Rolled(cfg, h, now))
    ensures Rolled(cfg, h, now).state.sent
            == (if OpensWindow(cfg, h.state, now) then 0 else AcceptedIn(h.accepts, h.epoch))
  {
    NoneLater(h.accepts, h.epoch, h.epoch + 1);
  }

  /** The client takes it, its window has room, and it repeats nothing too early. */
  ghost predicate Acceptable(cfg: Config, h: History, log: Log) {
    log.queued && HasRoom(cfg, h, log.now) && !Repeats(cfg, h.accepts, log.message, log.now)
  }

  /** What a log does to the window. */
  ghost predicate WindowMoved(cfg: Config, h: History, now: int, after: History) {
    var opens := OpensWindow(cfg, h.state, now);
    && after.state.windowStart == (if opens then Some(now) else h.state.windowStart)
    && after.epoch == h.epoch + (if opens then 1 else 0)
    && after.state.dropped == (if opens then 0 else h.state.dropped) + (if HasRoom(cfg, h, now) then 0 else 1)
  }

  /** What a log does to what was accepted. */
  ghost predicate Judged(cfg: Config, h: History, log: Log, after: History) {
    && after.state.windowStart.Some?
    && after.accepts ==
       if Acceptable(cfg, h, log)
       then h.accepts + [Accept(log.message, log.now, after.epoch, after.state.windowStart.value,
                                |Remembered(h.accepts)| >= cfg.maxTracked)]
       else h.accepts
  }

  lemma StepWindow(cfg: Config, h: History, log: Log)
    requires Counted(h)
    ensures WindowMoved(cfg, h, log.now, Step(cfg, h, log))
  {
    RolledCounted(cfg, h, log.now);
  }

  /** The decision on the fields of the state. */
  lemma StepShape(cfg: Config, h: History, log: Log)
    ensures var r, after := Rolled(cfg, h, log.now), Step(cfg, h, log);
            && after.state.windowStart == r.state.windowStart && r.state.windowStart.Some? && after.epoch == r.epoch
            && after.accepts ==
               if r.state.sent < cfg.maxEvents && !Suppressed(cfg, h.state, log) && log.queued
               then h.accepts + [Accept(log.message, log.now, after.epoch, after.state.windowStart.value,
                                        |h.state.lastSent| >= cfg.maxTracked)]
               else h.accepts
  {
  }

  lemma StepJudged(cfg: Config, h: History, log: Log)
    requires Explained(h)
    ensures Judged(cfg, h, log, Step(cfg, h, log))
  {
    RolledCounted(cfg, h, log.now);
    SuppressedExactly(cfg, h, log);
    TableIsRemembered(h);
    StepShape(cfg, h, log);
    assert |h.state.lastSent| == |h.state.lastSent.Keys|;
    JudgedBy(cfg, h, log, Step(cfg, h, log), Rolled(cfg, h, log.now).state.sent);
  }

  lemma JudgedBy(cfg: Config, h: History, log: Log, after: History, sent: nat)
    requires sent == (if OpensWindow(cfg, h.state, log.now) then 0 else AcceptedIn(h.accepts, h.epoch))
    requires Suppressed(cfg, h.state, log) <==> Repeats(cfg, h.accepts, log.message, log.now)
    requires |h.state.lastSent| == |Remembered(h.accepts)| && after.state.windowStart.Some?
    requires after.accepts ==
             if sent < cfg.maxEvents && !Suppressed(cfg, h.state, log) && log.queued
             then h.accepts + [Accept(log.message, log.now, after.epoch, after.state.windowStart.value,
                                      |h.state.lastSent| >= cfg.maxTracked)]
             else h.accepts
    ensures Judged(cfg, h, log, after)
  {
  }

  lemma StepCounted(cfg: Config, h: History, log: Log)
    requires Counted(h)
    ensures Counted(Step(cfg, h, log))
  {
    RolledCounted(cfg, h, log.now);
    var r, after := Rolled(cfg, h, log.now), Step(cfg, h, log);
    if |after.accepts| > |h.accepts| {
      var a := after.accepts[|h.accepts|];
      assert after.accepts == h.accepts + [a];
      AcceptedInMore(h.accepts, a, after.epoch);
    }
  }

  lemma StepRemembers(cfg: Config, h: History, log: Log)
    requires EntriesRemembered(h)
    ensures EntriesRemembered(Step(cfg, h, log))
  {
    var a := StepCases(cfg, h, log);
    var after := Step(cfg, h, log);
    if after.accepts != h.accepts { AcceptRemembers(cfg, h, after, a); }
  }

  lemma {:induction false} RunExplained(cfg: Config, run: seq<Log>)
    requires Monotone(run)
    ensures Explained(After(cfg, START, run))
  {
    RunTable(cfg, run);
    if run != [] {
      var before, log := run[..|run| - 1], run[|run| - 1];
      RunExplained(cfg, before);
      StepCounted(cfg, After(cfg, START, before), log);
      StepRemembers(cfg, After(cfg, START, before), log);
    }
  }

  /** After every run, a log is accepted exactly when the client takes it, its
      window has room, and it does not repeat a remembered message too early; it
      clears the table exactly when that remembers too many. */
  lemma RunJudged(cfg: Config, run: seq<Log>, log: Log)
    requires Monotone(run)
    ensures Judged(cfg, After(cfg, START, run), log, After(cfg, START, run + [log]))
    ensures WindowMoved(cfg, After(cfg, START, run), log.now, After(cfg, START, run + [log]))
  {
    RunExplained(cfg, run);
    StepWindow(cfg, After(cfg, START, run), log);
    StepJudged(cfg, After(cfg, START, run), log);
    AfterAppend(cfg, START, run, log);
  }
}
