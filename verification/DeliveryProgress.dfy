/** Progress of the delivery protocol: from every reachable state before the stop
    command, a worker whose sends succeed empties queue and spool, and answers
    every flush. */
module DeliveryProgress {
  import opened Text
  import opened Spool
  import opened Delivery
  import DeliveryRuns

  const ACCEPTED := Status(202)

  ghost predicate NoStop(s: State) {
    !s.phase.Stopped? && forall i | s.taken <= i < |s.commands| :: !s.commands[i].Shutdown?
  }

  predicate Done(s: State) {
    s.phase.Idle? && s.taken >= |s.commands| && s.files == []
  }

  /** What the worker does next; every response is a success. */
  function Next(s: State, name: string): Action {
    match s.phase
    case Idle => if s.taken < |s.commands| then Receive else IdleTimeout
    case Sending(_, _) => FinishSend(ACCEPTED, name)
    case Draining(_, _) => DrainNext(false)
    case Resending(_, _, _) => FinishResend(ACCEPTED)
    case Stopped => Receive
  }

  /** Work left: commands, files, and the steps to the next of them. */
  function Rank(phase: Phase, files: seq<Entry>): nat {
    match phase
    case Idle => if files == [] then 0 else 3
    case Sending(_, _) => 4
    case Draining(_, _) => 2
    case Resending(_, _, entry) => if entry in files then 1 else 3
    case Stopped => 0
  }

  function Work(s: State): int {
    10 * (|s.commands| - s.taken) + 10 * |s.files| + Rank(s.phase, s.files)
  }

  /** Nothing is lost between the two states. */
  ghost predicate NoneLost(s: State, u: State) {
    && u.ledger.captured == s.ledger.captured && u.ledger.rejected == s.ledger.rejected
    && u.ledger.dropped == s.ledger.dropped && u.ledger.evicted <= s.ledger.evicted
    && u.commands == s.commands && u.names == s.names
  }

  lemma {:induction false} WithoutShrinks(files: seq<Entry>, entry: Entry)
    requires entry in files
    ensures |Without(files, entry.name)| == |files| - 1
  {
    if files[0].name != entry.name {
      assert entry in files[1..];
      WithoutShrinks(files[1..], entry);
    }
  }

  lemma ResendAdvances(cfg: Config, s: State, name: string)
    requires s.phase.Resending? && DeliveryRuns.Tracked(s.files, s.names, s.phase, s.ledger.evicted)
    ensures var u := Step(cfg, s, Next(s, name)); NoneLost(s, u) && Work(u) < Work(s) && u.phase.Draining?
  {
    var entry, u := s.phase.entry, ResendFinished(s, ACCEPTED);
    assert Step(cfg, s, Next(s, name)) == u && u.phase.Draining? && u.files == Without(s.files, entry.name);
    if entry in s.files {
      WithoutShrinks(s.files, entry);
    } else {
      DeliveryRuns.WithoutAbsent(s.files, entry.name);
    }
  }

  lemma DrainAdvances(cfg: Config, s: State, name: string)
    requires s.phase.Draining?
    ensures var u := Step(cfg, s, Next(s, name)); NoneLost(s, u) && Work(u) < Work(s) && !u.phase.Stopped?
  {
  }

  lemma SendAdvances(cfg: Config, s: State, name: string)
    requires DeliveryRuns.Valid(s) && s.phase.Sending? && name !in s.names
    ensures var u := Step(cfg, s, Next(s, name)); NoneLost(s, u) && Work(u) < Work(s) && u.phase.Idle?
  {
  }

  lemma IdleAdvances(cfg: Config, s: State, name: string)
    requires s.phase.Idle? && NoStop(s) && !Done(s)
    ensures var u := Step(cfg, s, Next(s, name)); NoneLost(s, u) && Work(u) < Work(s) && !u.phase.Stopped?
  {
  }

  lemma Advances(cfg: Config, s: State, name: string)
    requires DeliveryRuns.Valid(s) && NoStop(s) && !Done(s) && name !in s.names
    ensures var u := Step(cfg, s, Next(s, name));
            NoneLost(s, u) && Work(u) < Work(s) && !u.phase.Stopped? && u.taken >= s.taken
  {
    match s.phase {
      case Idle => IdleAdvances(cfg, s, name);
      case Sending(_, _) => SendAdvances(cfg, s, name);
      case Draining(_, _) => DrainAdvances(cfg, s, name);
      case Resending(_, _, _) => ResendAdvances(cfg, s, name);
      case Stopped =>
    }
    TakenGrows(cfg, s, Next(s, name));
  }

  lemma TakenGrows(cfg: Config, s: State, a: Action)
    ensures Step(cfg, s, a).taken >= s.taken
  {
  }

  // ---- Flushes -----------------------------------------------------------

  ghost predicate IsAnswered(replies: seq<Reply>, index: nat) {
    exists r :: r in replies && r.index == index
  }

  /** Every flush the worker took is answered, or being served. */
  ghost predicate FlushesServed(s: State) {
    && s.taken <= |s.commands|
    && forall i | 0 <= i < s.taken && s.commands[i].Flush? ::
         IsAnswered(s.replies, i) || ((s.phase.Draining? || s.phase.Resending?) && s.phase.reply == Some(i))
  }

  lemma AnsweredServed(s: State, reply: Option<nat>, report: Report)
    requires FlushesServed(s) && (s.phase.Draining? || s.phase.Resending?) && reply == s.phase.reply
    ensures FlushesServed(Answered(s, reply, report))
  {
  }

  lemma StepServed(cfg: Config, s: State, a: Action)
    requires FlushesServed(s)
    ensures FlushesServed(Step(cfg, s, a))
  {
    match a
    case DrainNext(expired) =>
      if s.phase.Draining? {
        if expired {
          AnsweredServed(s, s.phase.reply, Report(s.phase.delivered, |s.files|));
        } else if WithoutCorruptHead(s.files) == [] {
          AnsweredServed(s.(files := []), s.phase.reply, Report(s.phase.delivered, 0));
        }
      }
    case FinishResend(response) =>
      if s.phase.Resending? && Classify(response).Retry? {
        AnsweredServed(s, s.phase.reply, Report(s.phase.delivered, |s.files|));
      }
    case _ =>
  }

  lemma {:induction false} RunServed(cfg: Config, files: seq<Entry>, run: seq<Action>)
    ensures FlushesServed(After(cfg, Start(files), run))
  {
    if run != [] {
      RunServed(cfg, files, run[..|run| - 1]);
      StepServed(cfg, After(cfg, Start(files), run[..|run| - 1]), run[|run| - 1]);
    }
  }

  // ---- Catching up -------------------------------------------------------

  /** Only the worker acts, and every send succeeds. */
  ghost predicate AllSucceed(run: seq<Action>) {
    forall i | 0 <= i < |run| ::
      run[i].Receive? || run[i].IdleTimeout? || run[i] == DrainNext(false) || run[i] == FinishResend(ACCEPTED)
      || (run[i].FinishSend? && run[i].response == ACCEPTED)
  }

  lemma {:induction false} CatchUpFrom(cfg: Config, s: State, name: string) returns (run: seq<Action>)
    requires DeliveryRuns.Valid(s) && FlushesServed(s) && NoStop(s) && name !in s.names
    decreases Work(s)
    ensures AllSucceed(run)
    ensures var u := After(cfg, s, run); DeliveryRuns.Valid(u) && FlushesServed(u) && Done(u) && NoneLost(s, u)
  {
    run := [];
    if !Done(s) {
      var next := Step(cfg, s, Next(s, name));
      Advances(cfg, s, name);
      DeliveryRuns.StepValid(cfg, s, Next(s, name));
      StepServed(cfg, s, Next(s, name));
      var rest := CatchUpFrom(cfg, next, name);
      run := [Next(s, name)] + rest;
      AfterCons(cfg, s, Next(s, name), rest);
    }
  }

  lemma {:induction false} AfterCons(cfg: Config, s: State, a: Action, run: seq<Action>)
    ensures After(cfg, s, [a] + run) == After(cfg, Step(cfg, s, a), run)
  {
    if run == [] {
      assert [a] + run == [a] && [a][..0] == [];
    } else {
      AfterCons(cfg, s, a, run[..|run| - 1]);
      assert ([a] + run)[..|run|] == [a] + run[..|run| - 1];
    }
  }

  /** Nothing accepted gets stuck: before the stop command, whatever happened so
      far, successful sends settle all that is pending as delivered, and every
      queued flush is answered. */
  lemma CatchUp(cfg: Config, files: seq<Entry>, past: seq<Action>, name: string) returns (run: seq<Action>)
    requires Ordered(files) && NoStop(After(cfg, Start(files), past)) && name !in After(cfg, Start(files), past).names
    ensures AllSucceed(run)
    ensures var s := After(cfg, Start(files), past);
            var u := After(cfg, s, run);
            && NoneLost(s, u) && u.phase.Idle? && u.taken == |u.commands| && u.files == []
            && u.ledger.captured == u.ledger.delivered + u.ledger.rejected + u.ledger.evicted + u.ledger.dropped
            && forall i | 0 <= i < |u.commands| && u.commands[i].Flush? :: IsAnswered(u.replies, i)
  {
    var s := After(cfg, Start(files), past);
    DeliveryRuns.RunValid(cfg, files, past);
    RunServed(cfg, files, past);
    run := CatchUpFrom(cfg, s, name);
    var u := After(cfg, s, run);
    assert u.commands[u.taken..] == [];
  }

  // ---- Stopping ----------------------------------------------------------

  /** A stop command waits in the queue, or the worker has stopped. */
  ghost predicate StopDue(s: State) {
    s.phase.Stopped? || exists i :: s.taken <= i < |s.commands| && s.commands[i].Shutdown?
  }

  lemma AdvancesToStop(cfg: Config, s: State, name: string)
    requires DeliveryRuns.Valid(s) && StopDue(s) && !s.phase.Stopped? && name !in s.names
    ensures var u := Step(cfg, s, Next(s, name));
            && NoneLost(s, u) && StopDue(u) && (u.phase.Stopped? || Work(u) < Work(s))
  {
    var i :| s.taken <= i < |s.commands| && s.commands[i].Shutdown?;
    var u := Step(cfg, s, Next(s, name));
    match s.phase {
      case Idle => StopOrNext(cfg, s, name);
      case Sending(_, _) => SendAdvances(cfg, s, name);
      case Draining(_, _) => DrainAdvances(cfg, s, name);
      case Resending(_, _, _) => ResendAdvances(cfg, s, name);
    }
    if !s.phase.Idle? { TakenStays(cfg, s, Next(s, name)); }
    assert u.phase.Stopped? || (u.taken <= i < |u.commands| && u.commands[i].Shutdown?);
  }

  lemma StopOrNext(cfg: Config, s: State, name: string)
    requires s.phase.Idle? && s.taken < |s.commands|
    ensures var u := Step(cfg, s, Next(s, name));
            && NoneLost(s, u) && u.taken == s.taken + 1 && (u.phase.Stopped? <==> s.commands[s.taken].Shutdown?)
            && (u.phase.Stopped? || Work(u) < Work(s))
  {
    var u := Step(cfg, s, Next(s, name));
    assert u == Received(s) && u.files == s.files;
  }

  lemma TakenStays(cfg: Config, s: State, a: Action)
    requires !s.phase.Idle?
    ensures Step(cfg, s, a).taken == s.taken
  {
  }

  lemma {:induction false} StopFrom(cfg: Config, s: State, name: string) returns (run: seq<Action>)
    requires DeliveryRuns.Valid(s) && StopDue(s) && name !in s.names
    requires Work(s) >= 0
    decreases Work(s)
    ensures AllSucceed(run)
    ensures var u := After(cfg, s, run); u.phase.Stopped? && NoneLost(s, u)
  {
    run := [];
    if !s.phase.Stopped? {
      var next := Step(cfg, s, Next(s, name));
      AdvancesToStop(cfg, s, name);
      DeliveryRuns.StepValid(cfg, s, Next(s, name));
      if next.phase.Stopped? {
        run := [Next(s, name)];
        assert [Next(s, name)][..0] == [];
      } else {
        var rest := StopFrom(cfg, next, name);
        run := [Next(s, name)] + rest;
        AfterCons(cfg, s, Next(s, name), rest);
      }
    }
  }

  /** A stop is reached: from every reachable state with a stop command queued,
      the worker's own steps, its sends succeeding, stop it and lose nothing. */
  lemma StopReached(cfg: Config, files: seq<Entry>, past: seq<Action>, name: string) returns (run: seq<Action>)
    requires Ordered(files) && StopDue(After(cfg, Start(files), past)) && name !in After(cfg, Start(files), past).names
    ensures AllSucceed(run)
    ensures var s := After(cfg, Start(files), past);
            After(cfg, s, run).phase.Stopped? && NoneLost(s, After(cfg, s, run))
  {
    DeliveryRuns.RunValid(cfg, files, past);
    run := StopFrom(cfg, After(cfg, Start(files), past), name);
  }
}
