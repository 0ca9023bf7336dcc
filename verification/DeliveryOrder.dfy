/** Order and bounds of the delivery protocol: what an answered flush and a
    finished shutdown mean, how large queue and spool get, and that a drain
    nobody disturbs is the sequential one. */
module DeliveryOrder {
  import opened Text
  import opened Spool
  import opened Delivery
  import DeliveryRuns
  import Runs

  /** All sends queued before place `n` are in `tried`. */
  ghost predicate TriedBefore(commands: seq<Command>, n: nat, tried: set<nat>) {
    forall i | 0 <= i < n && i < |commands| && commands[i].Send? :: i in tried
  }

  /** The worker is at the command it took last. */
  ghost predicate AtCommand(s: State) {
    && s.taken <= |s.commands|
    && (match s.phase
        case Idle => TriedBefore(s.commands, s.taken, s.attempted)
        case Sending(index, event) =>
          && s.taken > 0 && index == s.taken - 1 && s.commands[index] == Send(event)
          && TriedBefore(s.commands, index, s.attempted)
        case Draining(reply, _) => AtFlush(s, reply)
        case Resending(reply, _, _) => AtFlush(s, reply)
        case Stopped =>
          && s.taken > 0 && s.commands[s.taken - 1].Shutdown?
          && TriedBefore(s.commands, s.taken, s.attempted))
  }

  ghost predicate AtFlush(s: State, reply: Option<nat>) {
    && TriedBefore(s.commands, s.taken, s.attempted)
    && (reply.Some? ==>
          && s.taken > 0 && reply.value == s.taken - 1
          && s.taken <= |s.commands| && s.commands[reply.value].Flush?)
  }

  function PendingReply(phase: Phase): Option<nat> {
    if phase.Draining? || phase.Resending? then phase.reply else None
  }

  /** Flushes are answered in order, each at most once, each with every earlier
      send attempted. */
  ghost predicate Answers(s: State) {
    && (forall r | r in s.replies ::
          && r.index < s.taken && r.index < |s.commands| && s.commands[r.index].Flush?
          && TriedBefore(s.commands, r.index, r.attempted)
          && (PendingReply(s.phase).Some? ==> r.index < PendingReply(s.phase).value))
    && (forall i, j | 0 <= i < j < |s.replies| :: s.replies[i].index < s.replies[j].index)
  }

  /** Nothing is captured behind a stop command. */
  ghost predicate StopLast(s: State) {
    && (!s.stopping ==> forall i | 0 <= i < |s.commands| :: !s.commands[i].Shutdown?)
    && (forall i, j | 0 <= i < j < |s.commands| :: s.commands[i].Shutdown? ==> !s.commands[j].Send?)
  }

  ghost predicate Within(cfg: Config, s: State) {
    |s.commands| - s.taken <= cfg.capacity
  }

  ghost predicate Valid(cfg: Config, s: State) {
    AtCommand(s) && Answers(s) && StopLast(s) && Within(cfg, s)
  }

  lemma EnqueueValid(cfg: Config, s: State, command: Command)
    requires Valid(cfg, s) && HasRoom(cfg, s) && !s.phase.Stopped?
    requires command.Shutdown? ==> s.stopping
    requires command.Send? ==> !s.stopping
    ensures Valid(cfg, s.(commands := s.commands + [command]))
  {
  }

  lemma CaptureValid(cfg: Config, s: State, event: Event, name: string)
    requires Valid(cfg, s)
    ensures Valid(cfg, Captured(cfg, s, event, name))
  {
    if CaptureResult(cfg, s, event, name).Ok? {
      if HasRoom(cfg, s) { EnqueueValid(cfg, s, Send(event)); }
    }
  }

  lemma ReceiveValid(cfg: Config, s: State)
    requires Valid(cfg, s) && s.phase.Idle? && s.taken < |s.commands|
    ensures Valid(cfg, Received(s))
  {
  }

  /** The worker is idle again with its send attempted; files and fates vary. */
  lemma TriedValid(cfg: Config, s: State, files: seq<Entry>, names: set<string>, l: Ledger)
    requires Valid(cfg, s) && s.phase.Sending?
    ensures Valid(cfg, s.(phase := Idle, attempted := s.attempted + {s.phase.index}, files := files, names := names,
                          ledger := l))
  {
  }

  lemma SendFinishedValid(cfg: Config, s: State, response: Response, name: string)
    requires Valid(cfg, s) && s.phase.Sending?
    ensures Valid(cfg, SendFinished(cfg, s, response, name))
  {
    var after := SendFinished(cfg, s, response, name);
    TriedValid(cfg, s, after.files, after.names, after.ledger);
  }

  lemma AnsweredValid(cfg: Config, s: State, reply: Option<nat>, report: Report)
    requires Valid(cfg, s) && (s.phase.Draining? || s.phase.Resending?) && reply == s.phase.reply
    ensures Valid(cfg, Answered(s, reply, report))
  {
    if reply.Some? {
      var r := Reply(reply.value, report, s.attempted);
      assert TriedBefore(s.commands, r.index, r.attempted);
      assert forall q | q in s.replies + [r] :: q in s.replies || q == r;
      assert forall i | 0 <= i < |s.replies| :: s.replies[i] in s.replies;
    }
  }

  lemma DrainAdvancedValid(cfg: Config, s: State, expired: bool)
    requires Valid(cfg, s) && s.phase.Draining?
    ensures Valid(cfg, DrainAdvanced(s, expired))
  {
    if expired {
      AnsweredValid(cfg, s, s.phase.reply, Report(s.phase.delivered, |s.files|));
    } else if WithoutCorruptHead(s.files) == [] {
      AnsweredValid(cfg, s.(files := []), s.phase.reply, Report(s.phase.delivered, 0));
    }
  }

  lemma ResendFinishedValid(cfg: Config, s: State, response: Response)
    requires Valid(cfg, s) && s.phase.Resending? && s.phase.entry.content.Some?
    ensures Valid(cfg, ResendFinished(s, response))
  {
    if Classify(response).Retry? {
      AnsweredValid(cfg, s, s.phase.reply, Report(s.phase.delivered, |s.files|));
    }
  }

  lemma StepValid(cfg: Config, s: State, a: Action)
    requires Valid(cfg, s)
    ensures Valid(cfg, Step(cfg, s, a))
  {
    match a
    case Capture(event, name) => CaptureValid(cfg, s, event, name);
    case RequestFlush => if HasRoom(cfg, s) && !s.phase.Stopped? { EnqueueValid(cfg, s, Flush); }
    case RequestStop =>
    case PostShutdown => if s.stopping && HasRoom(cfg, s) && !s.phase.Stopped? { EnqueueValid(cfg, s, Shutdown); }
    case Receive => if s.phase.Idle? && s.taken < |s.commands| { ReceiveValid(cfg, s); }
    case IdleTimeout =>
    case FinishSend(response, name) => if s.phase.Sending? { SendFinishedValid(cfg, s, response, name); }
    case DrainNext(expired) => if s.phase.Draining? { DrainAdvancedValid(cfg, s, expired); }
    case FinishResend(response) =>
      if s.phase.Resending? && s.phase.entry.content.Some? { ResendFinishedValid(cfg, s, response); }
  }

  lemma {:induction false} RunValid(cfg: Config, files: seq<Entry>, run: seq<Action>)
    ensures Valid(cfg, After(cfg, Start(files), run))
  {
    if run != [] {
      RunValid(cfg, files, run[..|run| - 1]);
      StepValid(cfg, After(cfg, Start(files), run[..|run| - 1]), run[|run| - 1]);
    }
  }

  // ---- Results over every run --------------------------------------------

  lemma {:induction false} TotalOfLive(files: seq<Entry>)
    ensures Total(WithoutCorruptHead(files)) <= Total(files)
  {
    if files != [] && files[0].content.None? { TotalOfLive(files[1..]); }
  }

  lemma {:induction false} TotalOfRest(files: seq<Entry>, name: string)
    ensures Total(Without(files, name)) <= Total(files)
  {
    if files != [] && files[0].name != name {
      TotalOfRest(files[1..], name);
      var kept := Without(files[1..], name);
      assert ([files[0]] + kept)[1..] == kept;
    }
  }

  lemma StoreWithin(files: seq<Entry>, maxBytes: nat, event: Event, name: string)
    requires Stored(files, maxBytes, event, name).Ok?
    ensures Total(Stored(files, maxBytes, event, name).value) <= maxBytes
  {
    BoundedMeaning(Placed(files, Entry(name, Some(event), |event.body|)), maxBytes);
  }

  ghost predicate Shrinks(cfg: Config, before: seq<Entry>, after: seq<Entry>) {
    Total(after) <= cfg.maxBytes || Total(after) <= Total(before)
  }

  lemma CaptureWithin(cfg: Config, s: State, event: Event, name: string)
    ensures Shrinks(cfg, s.files, Captured(cfg, s, event, name).files)
  {
    if Stored(s.files, cfg.maxBytes, event, name).Ok? { StoreWithin(s.files, cfg.maxBytes, event, name); }
  }

  lemma SendWithin(cfg: Config, s: State, response: Response, name: string)
    requires s.phase.Sending?
    ensures Shrinks(cfg, s.files, SendFinished(cfg, s, response, name).files)
  {
    if Stored(s.files, cfg.maxBytes, s.phase.event, name).Ok? {
      StoreWithin(s.files, cfg.maxBytes, s.phase.event, name);
    }
  }

  lemma StepWithin(cfg: Config, s: State, a: Action)
    ensures Shrinks(cfg, s.files, Step(cfg, s, a).files)
  {
    match a
    case Capture(event, name) => CaptureWithin(cfg, s, event, name);
    case FinishSend(response, name) => if s.phase.Sending? { SendWithin(cfg, s, response, name); }
    case DrainNext(_) => TotalOfLive(s.files);
    case FinishResend(_) => if s.phase.Resending? { TotalOfRest(s.files, s.phase.entry.name); }
    case _ =>
  }

  /** Queue and spool never exceed their limits; a spool found over its limit
      only shrinks until it is within it. */
  lemma {:induction false} BoundsKept(cfg: Config, files: seq<Entry>, run: seq<Action>)
    ensures var s := After(cfg, Start(files), run);
            && |s.commands| - s.taken <= cfg.capacity
            && (Total(s.files) <= cfg.maxBytes || Total(s.files) <= Total(files))
  {
    RunValid(cfg, files, run);
    if run != [] {
      var before := run[..|run| - 1];
      BoundsKept(cfg, files, before);
      StepWithin(cfg, After(cfg, Start(files), before), run[|run| - 1]);
    }
  }

  /** An answered flush has had every event queued before it attempted, and
      flushes are answered once each, in order. */
  lemma FlushMeansAttempted(cfg: Config, files: seq<Entry>, run: seq<Action>, k: nat, i: nat)
    requires k < |After(cfg, Start(files), run).replies|
    ensures var s := After(cfg, Start(files), run);
            var reply := s.replies[k];
            && reply.index < |s.commands| && s.commands[reply.index].Flush?
            && (i < reply.index && s.commands[i].Send? ==> i in reply.attempted)
            && (k + 1 < |s.replies| ==> reply.index < s.replies[k + 1].index)
  {
    RunValid(cfg, files, run);
    var s := After(cfg, Start(files), run);
    assert s.replies[k] in s.replies;
  }

  lemma {:induction false} NoSendsQueued(commands: seq<Command>)
    requires forall i | 0 <= i < |commands| :: !commands[i].Send?
    ensures DeliveryRuns.Queued(commands) == multiset{}
  {
    if commands != [] { NoSendsQueued(commands[1..]); }
  }

  /** When the worker has stopped, every event ever queued was attempted, and
      every accepted event is in the spool or settled. */
  lemma StopMeansAttempted(cfg: Config, files: seq<Entry>, run: seq<Action>)
    requires Ordered(files) && After(cfg, Start(files), run).phase.Stopped?
    ensures var s := After(cfg, Start(files), run);
            && (forall i | 0 <= i < |s.commands| && s.commands[i].Send? :: i in s.attempted)
            && s.ledger.captured == multiset(Events(s.files)) + s.ledger.delivered + s.ledger.rejected
                                    + s.ledger.evicted + s.ledger.dropped
  {
    RunValid(cfg, files, run);
    DeliveryRuns.Conservation(cfg, files, run);
    var s := After(cfg, Start(files), run);
    var rest := s.commands[s.taken..];
    forall i | 0 <= i < |rest| ensures !rest[i].Send? {
      assert rest[i] == s.commands[s.taken + i];
    }
    NoSendsQueued(rest);
    forall i | 0 <= i < |s.commands| && s.commands[i].Send? ensures i in s.attempted {
      assert i < s.taken;
    }
  }

  // ---- A drain nobody disturbs -------------------------------------------

  /** The worker's actions for the rounds of an undisturbed drain. */
  function DrainActions(files: seq<Entry>, rounds: seq<Round>): seq<Action>
    decreases |rounds|
  {
    if rounds == [] || rounds[0].expired then [DrainNext(true)]
    else
      var live := WithoutCorruptHead(files);
      if live == [] then [DrainNext(false)]
      else if Classify(rounds[0].response).Retry? then [DrainNext(false), FinishResend(rounds[0].response)]
      else [DrainNext(false), FinishResend(rounds[0].response)] + DrainActions(live[1..], rounds[1..])
  }

  lemma AfterConcat(cfg: Config, s: State, a: seq<Action>, b: seq<Action>)
    ensures After(cfg, s, a + b) == After(cfg, After(cfg, s, a), b)
  {
    Runs.Concat((t: State, run: seq<Action>) => After(cfg, t, run), (t: State, c: Action) => Step(cfg, t, c), s, a, b);
  }

  lemma AfterOne(cfg: Config, s: State, a: Action)
    ensures After(cfg, s, [a]) == Step(cfg, s, a)
  {
  }

  lemma AfterTwo(cfg: Config, s: State, a: Action, b: Action)
    ensures After(cfg, s, [a, b]) == Step(cfg, Step(cfg, s, a), b)
  {
    assert [a, b][..1] == [a];
    AfterOne(cfg, s, a);
  }

  /** One settled round of the drain. */
  lemma SettledRound(cfg: Config, s: State, response: Response)
    requires s.phase.Draining? && Ordered(s.files)
    requires WithoutCorruptHead(s.files) != [] && !Classify(response).Retry?
    ensures var live := WithoutCorruptHead(s.files);
            var next := Step(cfg, Step(cfg, s, DrainNext(false)), FinishResend(response));
            && next.files == live[1..] && Ordered(live[1..])
            && next.replies == s.replies && next.attempted == s.attempted
            && next.phase == Draining(s.phase.reply,
                                      s.phase.delivered + (if Classify(response).Delivered? then 1 else 0))
  {
    LiveIsSuffix(s.files);
  }

  /** The drain is over as the sequential one computes it: the same files
      remain and the flush, if any, got the same report. */
  ghost predicate DrainedAs(s: State, done: State, d: Drain)
    requires s.phase.Draining?
  {
    && done.files == d.files && done.phase.Idle?
    && done.replies == s.replies
                       + (if s.phase.reply.Some?
                          then [Reply(s.phase.reply.value, Report(s.phase.delivered + d.delivered, |d.files|),
                                      s.attempted)]
                          else [])
  }

  lemma DeadlineRound(cfg: Config, s: State)
    requires s.phase.Draining?
    ensures DrainedAs(s, Step(cfg, s, DrainNext(true)), Drain(s.files, [], 0, 0, 0))
  {
  }

  lemma EmptyRound(cfg: Config, s: State, corrupt: nat)
    requires s.phase.Draining? && WithoutCorruptHead(s.files) == []
    ensures DrainedAs(s, Step(cfg, s, DrainNext(false)), Drain([], [], 0, 0, corrupt))
  {
  }

  lemma RetryRound(cfg: Config, s: State, response: Response, sent: seq<Event>, corrupt: nat)
    requires s.phase.Draining? && WithoutCorruptHead(s.files) != [] && Classify(response).Retry?
    ensures DrainedAs(s, Step(cfg, Step(cfg, s, DrainNext(false)), FinishResend(response)),
                      Drain(WithoutCorruptHead(s.files), sent, 0, 0, corrupt))
  {
  }

  lemma DrainedOneMore(s: State, next: State, done: State, rest: Drain, event: Event,
                       delivered: nat, rejected: nat, corrupt: nat)
    requires s.phase.Draining? && next.phase == Draining(s.phase.reply, s.phase.delivered + delivered)
    requires next.replies == s.replies && next.attempted == s.attempted && DrainedAs(next, done, rest)
    ensures DrainedAs(s, done, rest.After(event, delivered, rejected, corrupt))
  {
  }

  lemma {:induction false} SettledRoundRefines(cfg: Config, s: State, next: State, rounds: seq<Round>)
    requires s.phase.Draining? && Ordered(s.files) && rounds != [] && !rounds[0].expired
    requires WithoutCorruptHead(s.files) != [] && !Classify(rounds[0].response).Retry?
    requires next == Step(cfg, Step(cfg, s, DrainNext(false)), FinishResend(rounds[0].response)) && next.phase.Draining?
    requires DrainedAs(next, After(cfg, next, DrainActions(next.files, rounds[1..])), Drained(next.files, rounds[1..]))
    ensures DrainedAs(s, After(cfg, s, DrainActions(s.files, rounds)), Drained(s.files, rounds))
  {
    var live, response := WithoutCorruptHead(s.files), rounds[0].response;
    SettledRound(cfg, s, response);
    AfterTwo(cfg, s, DrainNext(false), FinishResend(response));
    AfterConcat(cfg, s, [DrainNext(false), FinishResend(response)], DrainActions(live[1..], rounds[1..]));
    var delivered := if Classify(response).Delivered? then 1 else 0;
    DrainedOneMore(s, next, After(cfg, next, DrainActions(next.files, rounds[1..])), Drained(next.files, rounds[1..]),
                   live[0].content.value, delivered, 1 - delivered, |s.files| - |live|);
  }

  /** Step by step the worker does what the sequential drain computes. */
  lemma {:induction false} DrainRefines(cfg: Config, s: State, rounds: seq<Round>)
    requires s.phase.Draining? && Ordered(s.files)
    ensures DrainedAs(s, After(cfg, s, DrainActions(s.files, rounds)), Drained(s.files, rounds))
    decreases |rounds|
  {
    var live := WithoutCorruptHead(s.files);
    if rounds == [] || rounds[0].expired {
      AfterOne(cfg, s, DrainNext(true));
      DeadlineRound(cfg, s);
    } else if live == [] {
      AfterOne(cfg, s, DrainNext(false));
      EmptyRound(cfg, s, |s.files|);
    } else {
      if Classify(rounds[0].response).Retry? {
        AfterTwo(cfg, s, DrainNext(false), FinishResend(rounds[0].response));
        RetryRound(cfg, s, rounds[0].response, [live[0].content.value], |s.files| - |live|);
      } else {
        var next := Step(cfg, Step(cfg, s, DrainNext(false)), FinishResend(rounds[0].response));
        SettledRound(cfg, s, rounds[0].response);
        DrainRefines(cfg, next, rounds[1..]);
        SettledRoundRefines(cfg, s, next, rounds);
      }
    }
  }
}
