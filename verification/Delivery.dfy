/** The SDK's delivery protocol (crates/zbierak-sdk/src/blocking.rs and
    async_client.rs): capturing threads, a bounded command queue, one worker, the
    disk spool. Each action is one section of code that runs without
    interference; captures may fall between any two actions of the worker. */
module Delivery {
  import opened Text
  import opened Spool

  datatype Config = Config(capacity: nat, maxBytes: nat)

  datatype Command = Send(event: Event) | Flush | Shutdown

  datatype CaptureError = SenderStopped | SpoolFailed(error: SpoolError)

  /** What the worker is doing. `index` is the command's place in the order of
      queueing; `reply` is the flush to answer, if one asked for the drain. */
  datatype Phase =
    | Idle
    | Sending(index: nat, event: Event)
    | Draining(reply: Option<nat>, delivered: nat)
    | Resending(reply: Option<nat>, delivered: nat, entry: Entry)
    | Stopped

  /** An answered flush, with the sends attempted by then. */
  datatype Reply = Reply(index: nat, report: Report, attempted: set<nat>)

  /** Events by fate: accepted from callers (or found in the spool at the start),
      then delivered, permanently rejected, evicted by the byte bound, or
      dropped because the spool refused them. An event evicted while it was
      being resent counts as evicted until the response arrives. */
  datatype Ledger = Ledger(
    captured: multiset<Event>, delivered: multiset<Event>, rejected: multiset<Event>,
    evicted: multiset<Event>, dropped: multiset<Event>)

  datatype State = State(
    commands: seq<Command>, taken: nat, phase: Phase, files: seq<Entry>, names: set<string>,
    stopping: bool, ledger: Ledger, attempted: set<nat>, replies: seq<Reply>)

  datatype Action =
    | Capture(event: Event, name: string)
    | RequestFlush
    | RequestStop
    | PostShutdown
    | Receive
    | IdleTimeout
    | FinishSend(response: Response, name: string)
    | DrainNext(expired: bool)
    | FinishResend(response: Response)

  function Start(files: seq<Entry>): State {
    State([], 0, Idle, files, set f | f in files :: f.name, false,
          Ledger(multiset(Events(files)), multiset{}, multiset{}, multiset{}, multiset{}), {}, [])
  }

  // ---- Steps -------------------------------------------------------------

  /** The events a store under this name evicts, its own included. */
  function EvictedEvents(files: seq<Entry>, maxBytes: nat, event: Event, name: string): seq<Event> {
    var all := Placed(files, Entry(name, Some(event), |event.body|));
    Events(all[..Evicted(all, maxBytes)])
  }

  /** The state after a successful store. */
  function Spooled(cfg: Config, s: State, event: Event, name: string, files: seq<Entry>): State {
    s.(files := files, names := s.names + {name},
       ledger := s.ledger.(evicted := s.ledger.evicted + multiset(EvictedEvents(s.files, cfg.maxBytes, event, name))))
  }

  function CaptureResult(cfg: Config, s: State, event: Event, name: string): Result<(), CaptureError> {
    if s.stopping || s.phase.Stopped? then Err(SenderStopped)
    else if |s.commands| - s.taken < cfg.capacity then Ok(())
    else match Stored(s.files, cfg.maxBytes, event, name)
         case Ok(_) => Ok(())
         case Err(e) => Err(SpoolFailed(e))
  }

  function Captured(cfg: Config, s: State, event: Event, name: string): State {
    if CaptureResult(cfg, s, event, name).Err? then s
    else
      var counted := s.(ledger := s.ledger.(captured := s.ledger.captured + multiset{event}));
      if |s.commands| - s.taken < cfg.capacity then counted.(commands := s.commands + [Send(event)])
      else match Stored(s.files, cfg.maxBytes, event, name)
           case Ok(files) => Spooled(cfg, counted, event, name, files)
           case Err(_) => s
  }

  function Received(s: State): State
    requires s.phase.Idle? && s.taken < |s.commands|
  {
    s.(taken := s.taken + 1,
       phase := match s.commands[s.taken]
                case Send(event) => Sending(s.taken, event)
                case Flush => Draining(Some(s.taken), 0)
                case Shutdown => Stopped)
  }

  function SendFinished(cfg: Config, s: State, response: Response, name: string): State
    requires s.phase.Sending?
  {
    var event := s.phase.event;
    var tried := s.(phase := Idle, attempted := s.attempted + {s.phase.index});
    match Classify(response)
    case Delivered => tried.(ledger := s.ledger.(delivered := s.ledger.delivered + multiset{event}))
    case PermanentFailure => tried.(ledger := s.ledger.(rejected := s.ledger.rejected + multiset{event}))
    case Retry =>
      match Stored(s.files, cfg.maxBytes, event, name)
      case Ok(files) => Spooled(cfg, tried, event, name, files)
      case Err(_) => tried.(ledger := s.ledger.(dropped := s.ledger.dropped + multiset{event}))
  }

  /** The drain ends and its flush, if any, is answered. */
  function Answered(s: State, reply: Option<nat>, report: Report): State {
    s.(phase := Idle,
       replies := s.replies + (if reply.Some? then [Reply(reply.value, report, s.attempted)] else []))
  }

  function DrainAdvanced(s: State, expired: bool): State
    requires s.phase.Draining?
  {
    var live := WithoutCorruptHead(s.files);
    if expired then Answered(s, s.phase.reply, Report(s.phase.delivered, |s.files|))
    else if live == [] then Answered(s.(files := []), s.phase.reply, Report(s.phase.delivered, 0))
    else s.(files := live, phase := Resending(s.phase.reply, s.phase.delivered, live[0]))
  }

  /** A settled resend leaves the spool, or the evicted if it was evicted meanwhile. */
  function ResentLedger(files: seq<Entry>, l: Ledger, entry: Entry, event: Event, delivered: bool): Ledger {
    var evicted := if Holds(files, entry.name) then l.evicted else l.evicted - multiset{event};
    if delivered then l.(evicted := evicted, delivered := l.delivered + multiset{event})
    else l.(evicted := evicted, rejected := l.rejected + multiset{event})
  }

  function ResendFinished(s: State, response: Response): State
    requires s.phase.Resending? && s.phase.entry.content.Some?
  {
    var entry, reply, delivered := s.phase.entry, s.phase.reply, s.phase.delivered;
    var event := entry.content.value;
    match Classify(response)
    case Delivered =>
      s.(files := Without(s.files, entry.name), phase := Draining(reply, delivered + 1),
         ledger := ResentLedger(s.files, s.ledger, entry, event, true))
    case PermanentFailure =>
      s.(files := Without(s.files, entry.name), phase := Draining(reply, delivered),
         ledger := ResentLedger(s.files, s.ledger, entry, event, false))
    case Retry => Answered(s, reply, Report(delivered, |s.files|))
  }

  predicate HasRoom(cfg: Config, s: State) {
    |s.commands| - s.taken < cfg.capacity
  }

  /** One action; it does nothing where the code could not take it. File names
      are taken to be fresh, as the random part makes them. */
  function Step(cfg: Config, s: State, a: Action): State {
    match a
    case Capture(event, name) => if name in s.names then s else Captured(cfg, s, event, name)
    case RequestFlush => if HasRoom(cfg, s) && !s.phase.Stopped? then s.(commands := s.commands + [Flush]) else s
    case RequestStop => s.(stopping := true)
    case PostShutdown =>
      if s.stopping && HasRoom(cfg, s) && !s.phase.Stopped? then s.(commands := s.commands + [Shutdown]) else s
    case Receive => if s.phase.Idle? && s.taken < |s.commands| then Received(s) else s
    case IdleTimeout => if s.phase.Idle? && s.taken >= |s.commands| then s.(phase := Draining(None, 0)) else s
    case FinishSend(response, name) =>
      if s.phase.Sending? && name !in s.names then SendFinished(cfg, s, response, name) else s
    case DrainNext(expired) => if s.phase.Draining? then DrainAdvanced(s, expired) else s
    case FinishResend(response) =>
      if s.phase.Resending? && s.phase.entry.content.Some? then ResendFinished(s, response) else s
  }

  function After(cfg: Config, s: State, run: seq<Action>): State {
    if run == [] then s else Step(cfg, After(cfg, s, run[..|run| - 1]), run[|run| - 1])
  }

  // ---- The client object -------------------------------------------------

  class Client {
    const cfg: Config
    var queue: seq<Command>
    var taken: nat
    var phase: Phase
    var files: seq<Entry>
    var stopping: bool
    ghost var passed: seq<Command>
    ghost var names: set<string>
    ghost var ledger: Ledger
    ghost var attempted: set<nat>
    ghost var replies: seq<Reply>

    ghost function View(): State
      reads this
    {
      State(passed + queue, taken, phase, files, names, stopping, ledger, attempted, replies)
    }

    ghost predicate Valid()
      reads this
    {
      |passed| == taken && (phase.Resending? ==> phase.entry.content.Some?)
    }

    constructor (cfg: Config, files: seq<Entry>)
      ensures Valid() && View() == Start(files) && this.cfg == cfg
    {
      this.cfg := cfg;
      queue, taken, phase, this.files, stopping := [], 0, Idle, files, false;
      passed, names, ledger, attempted, replies :=
        [], Start(files).names, Start(files).ledger, {}, [];
    }

    method CaptureEvent(event: Event, name: string) returns (r: Result<string, CaptureError>)
      requires Valid() && name !in names
      modifies this
      ensures Valid() && View() == Step(cfg, old(View()), Capture(event, name))
      ensures r == if old(stopping || phase.Stopped?) then Err(SenderStopped)
                   else if |old(queue)| < cfg.capacity || (0 < cfg.maxBytes && |event.body| <= cfg.maxBytes)
                   then Ok(event.id)
                   else Err(SpoolFailed(if cfg.maxBytes == 0 then Disabled else EventTooLarge))
      ensures r.Err? ==> View() == old(View())
    {
      if stopping || phase.Stopped? { return Err(SenderStopped); }
      if |queue| < cfg.capacity {
        assert passed + (queue + [Send(event)]) == passed + queue + [Send(event)];
        queue := queue + [Send(event)];
        ledger := ledger.(captured := ledger.captured + multiset{event});
        return Ok(event.id);
      }
      var stored := Store(event, name);
      if stored.Err? { return Err(SpoolFailed(stored.error)); }
      ledger := ledger.(captured := ledger.captured + multiset{event});
      return Ok(event.id);
    }

    /** The locked call of the spool's `store`, from either side. */
    method Store(event: Event, name: string) returns (r: Result<(), SpoolError>)
      requires Valid()
      modifies `files, `names, `ledger
      ensures Valid()
      ensures match Stored(old(files), cfg.maxBytes, event, name)
              case Ok(kept) => r == Ok(()) && View() == Spooled(cfg, old(View()), event, name, kept)
              case Err(e) => r == Err(e) && View() == old(View())
    {
      var stored := Stored(files, cfg.maxBytes, event, name);
      if stored.Err? { return Err(stored.error); }
      ledger := ledger.(evicted := ledger.evicted + multiset(EvictedEvents(files, cfg.maxBytes, event, name)));
      files, names := stored.value, names + {name};
      return Ok(());
    }

    /** One attempt of `flush` to queue its command. */
    method TryFlush() returns (queued: bool)
      requires Valid()
      modifies `queue
      ensures Valid() && View() == Step(cfg, old(View()), RequestFlush)
      ensures queued <==> |old(queue)| < cfg.capacity && !phase.Stopped?
    {
      queued := |queue| < cfg.capacity && !phase.Stopped?;
      if queued {
        assert passed + (queue + [Flush]) == passed + queue + [Flush];
        queue := queue + [Flush];
      }
    }

    /** Marks the client stopped for every clone. */
    method BeginShutdown()
      requires Valid()
      modifies `stopping
      ensures Valid() && View() == Step(cfg, old(View()), RequestStop)
    {
      stopping := true;
    }

    /** One attempt to queue the stop command, made once the client is stopping. */
    method TryPostShutdown() returns (queued: bool)
      requires Valid()
      modifies `queue
      ensures Valid() && View() == Step(cfg, old(View()), PostShutdown)
      ensures queued <==> stopping && |old(queue)| < cfg.capacity && !phase.Stopped?
    {
      queued := stopping && |queue| < cfg.capacity && !phase.Stopped?;
      if queued {
        assert passed + (queue + [Shutdown]) == passed + queue + [Shutdown];
        queue := queue + [Shutdown];
      }
    }

    /** The worker's wait for its next command. */
    method ReceiveCommand(timedOut: bool)
      requires Valid() && phase.Idle? && (timedOut <==> queue == [])
      modifies this
      ensures Valid() && View() == Step(cfg, old(View()), if timedOut then IdleTimeout else Receive)
    {
      if timedOut {
        phase := Draining(None, 0);
        return;
      }
      var command := queue[0];
      assert passed + queue == (passed + [command]) + queue[1..];
      phase := match command
               case Send(event) => Sending(taken, event)
               case Flush => Draining(Some(taken), 0)
               case Shutdown => Stopped;
      passed, queue, taken := passed + [command], queue[1..], taken + 1;
    }

    /** The worker gets the response to a queued event. */
    method FinishDelivery(response: Response, name: string)
      requires Valid() && phase.Sending? && name !in names
      modifies this
      ensures Valid() && View() == Step(cfg, old(View()), FinishSend(response, name))
    {
      var event := phase.event;
      attempted, phase := attempted + {phase.index}, Idle;
      match Classify(response)
      case Delivered => ledger := ledger.(delivered := ledger.delivered + multiset{event});
      case PermanentFailure => ledger := ledger.(rejected := ledger.rejected + multiset{event});
      case Retry =>
        var stored := Store(event, name);
        if stored.Err? { ledger := ledger.(dropped := ledger.dropped + multiset{event}); }
    }

    method Answer(reply: Option<nat>, report: Report)
      requires Valid()
      modifies `phase, `replies
      ensures Valid() && View() == Answered(old(View()), reply, report)
    {
      phase := Idle;
      replies := Answered(View(), reply, report).replies;
    }

    /** One turn of the drain loop, up to sending the oldest event. */
    method ContinueDrain(expired: bool)
      requires Valid() && phase.Draining?
      modifies this
      ensures Valid() && View() == Step(cfg, old(View()), DrainNext(expired))
    {
      var reply, delivered := phase.reply, phase.delivered;
      if expired {
        Answer(reply, Report(delivered, |files|));
        return;
      }
      files := WithoutCorruptHead(files);
      if files == [] {
        Answer(reply, Report(delivered, 0));
      } else {
        phase := Resending(reply, delivered, files[0]);
      }
    }

    /** The worker gets the response to a spooled event. */
    method FinishRedelivery(response: Response)
      requires Valid() && phase.Resending?
      modifies this
      ensures Valid() && View() == Step(cfg, old(View()), FinishResend(response))
    {
      var entry, reply, delivered := phase.entry, phase.reply, phase.delivered;
      match Classify(response)
      case Delivered =>
        Settle(entry, true);
        phase := Draining(reply, delivered + 1);
      case PermanentFailure =>
        Settle(entry, false);
        phase := Draining(reply, delivered);
      case Retry =>
        Answer(reply, Report(delivered, |files|));
    }

    /** A settled event's file is removed. */
    method Settle(entry: Entry, delivered: bool)
      requires entry.content.Some?
      modifies `files, `ledger
      ensures files == Without(old(files), entry.name)
      ensures ledger == ResentLedger(old(files), old(ledger), entry, entry.content.value, delivered)
    {
      ledger := ResentLedger(files, ledger, entry, entry.content.value, delivered);
      files := Without(files, entry.name);
    }
  }
}
