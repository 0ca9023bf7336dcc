/** What the delivery protocol keeps over every run of captures, flushes, worker
    actions and a shutdown. */
module DeliveryRuns {
  import opened Text
  import opened Spool
  import opened Delivery

  // ---- Conservation ------------------------------------------------------

  function Queued(commands: seq<Command>): multiset<Event> {
    if commands == [] then multiset{}
    else (if commands[0].Send? then multiset{commands[0].event} else multiset{}) + Queued(commands[1..])
  }

  function InFlight(phase: Phase): multiset<Event> {
    if phase.Sending? then multiset{phase.event} else multiset{}
  }

  function OnDisk(files: seq<Entry>): multiset<Event> {
    if files == [] then multiset{}
    else (if files[0].content.Some? then multiset{files[0].content.value} else multiset{}) + OnDisk(files[1..])
  }

  function Settled(l: Ledger): multiset<Event> {
    l.delivered + l.rejected + l.evicted + l.dropped
  }

  /** Every accepted event has exactly one fate, counted with multiplicity. */
  ghost predicate Conserved(queue: seq<Command>, phase: Phase, files: seq<Entry>, l: Ledger) {
    l.captured == Queued(queue) + InFlight(phase) + OnDisk(files) + Settled(l)
  }

  /** A file being resent is either still itself in the spool, or evicted. */
  ghost predicate Tracked(files: seq<Entry>, names: set<string>, phase: Phase, evicted: multiset<Event>) {
    phase.Resending? ==>
      && phase.entry.content.Some? && phase.entry.name in names
      && (phase.entry in files || (!Named(files, phase.entry.name) && phase.entry.content.value in evicted))
  }

  ghost predicate Named(files: seq<Entry>, name: string) {
    exists f :: f in files && f.name == name
  }

  ghost predicate Filed(files: seq<Entry>, names: set<string>) {
    Ordered(files) && forall f | f in files :: f.name in names
  }

  ghost predicate Valid(s: State) {
    && s.taken <= |s.commands|
    && Conserved(s.commands[s.taken..], s.phase, s.files, s.ledger)
    && Filed(s.files, s.names) && Tracked(s.files, s.names, s.phase, s.ledger.evicted)
  }

  lemma {:induction false} OnDiskConcat(a: seq<Entry>, b: seq<Entry>)
    ensures OnDisk(a + b) == OnDisk(a) + OnDisk(b)
  {
    if a == [] {
      assert a + b == b;
    } else {
      assert (a + b)[1..] == a[1..] + b;
      OnDiskConcat(a[1..], b);
    }
  }

  lemma {:induction false} QueuedConcat(a: seq<Command>, b: seq<Command>)
    ensures Queued(a + b) == Queued(a) + Queued(b)
  {
    if a == [] {
      assert a + b == b;
    } else {
      assert (a + b)[1..] == a[1..] + b;
      QueuedConcat(a[1..], b);
    }
  }

  lemma {:induction false} OnDiskIsEvents(files: seq<Entry>)
    ensures OnDisk(files) == multiset(Events(files))
  {
    if files != [] { OnDiskIsEvents(files[1..]); }
  }

  lemma {:induction false} OnDiskMember(files: seq<Entry>, entry: Entry)
    requires entry in files && entry.content.Some?
    ensures entry.content.value in OnDisk(files)
  {
    if files[0] != entry {
      assert entry in files[1..];
      OnDiskMember(files[1..], entry);
    }
  }

  lemma NamesDiffer(files: seq<Entry>, f: Entry, g: Entry)
    requires Ordered(files) && f in files && g in files && f.name == g.name
    ensures f == g
  {
    var i :| 0 <= i < |files| && files[i] == f;
    var j :| 0 <= j < |files| && files[j] == g;
    LessIrreflexive(f.name);
  }

  lemma PlacedOnDisk(files: seq<Entry>, entry: Entry)
    requires entry.content.Some?
    ensures OnDisk(Placed(files, entry)) == OnDisk(files) + multiset{entry.content.value}
  {
    var i := Position(files, entry.name);
    assert files == files[..i] + files[i..];
    OnDiskConcat(files[..i] + [entry], files[i..]);
    OnDiskConcat(files[..i], [entry]);
    OnDiskConcat(files[..i], files[i..]);
    assert OnDisk([entry]) == multiset{entry.content.value} by { assert [entry][1..] == []; }
  }

  lemma PlacedMembers(files: seq<Entry>, entry: Entry)
    ensures forall f :: f in Placed(files, entry) <==> f in files || f == entry
  {
    var i := Position(files, entry.name);
    assert files == files[..i] + files[i..];
  }

  /** A store puts the new file into the listing and cuts the listing in two. */
  lemma StoreParts(files: seq<Entry>, maxBytes: nat, event: Event, name: string, kept: seq<Entry>)
    returns (entry: Entry, gone: seq<Entry>)
    requires Stored(files, maxBytes, event, name) == Ok(kept)
    ensures entry == Entry(name, Some(event), |event.body|)
    ensures OnDisk(files) + multiset{event} == OnDisk(gone) + OnDisk(kept)
    ensures OnDisk(gone) == multiset(EvictedEvents(files, maxBytes, event, name))
    ensures forall f :: f in gone + kept <==> f in files || f == entry
  {
    entry := Entry(name, Some(event), |event.body|);
    var all := Placed(files, entry);
    gone := all[..Evicted(all, maxBytes)];
    assert gone + kept == all;
    OnDiskIsEvents(gone);
    OnDiskConcat(gone, kept);
    PlacedOnDisk(files, entry);
    PlacedMembers(files, entry);
  }

  lemma StoreFiled(files: seq<Entry>, names: set<string>, maxBytes: nat, event: Event, name: string, kept: seq<Entry>)
    requires Filed(files, names) && name !in names && Stored(files, maxBytes, event, name) == Ok(kept)
    ensures Filed(kept, names + {name})
  {
    assert !Holds(files, name) by {
      forall i | 0 <= i < |files| ensures files[i].name != name { assert files[i] in files; }
    }
    StoreMeaning(files, maxBytes, event, name);
    var entry, gone := StoreParts(files, maxBytes, event, name, kept);
    forall f | f in kept ensures f.name in names + {name} { assert f in gone + kept; }
  }

  lemma StoreTracked(files: seq<Entry>, names: set<string>, phase: Phase, evicted: multiset<Event>,
                     maxBytes: nat, event: Event, name: string, kept: seq<Entry>)
    requires Filed(files, names) && Tracked(files, names, phase, evicted)
    requires name !in names && Stored(files, maxBytes, event, name) == Ok(kept)
    ensures Tracked(kept, names + {name}, phase, evicted + multiset(EvictedEvents(files, maxBytes, event, name)))
  {
    if phase.Resending? {
      var entry, gone := StoreParts(files, maxBytes, event, name, kept);
      StoreFiled(files, names, maxBytes, event, name, kept);
      var resent := phase.entry;
      assert forall f | f in kept :: f in gone + kept;
      if resent in files && resent !in kept {
        assert resent in gone + kept;
        OnDiskMember(gone, resent);
        forall f | f in kept ensures f.name != resent.name {
          if f in files && f.name == resent.name { NamesDiffer(files, f, resent); }
        }
      }
    }
  }

  lemma {:induction false} WithoutAbsent(files: seq<Entry>, name: string)
    requires !Named(files, name)
    ensures Without(files, name) == files
  {
    if files != [] {
      assert files[0] in files;
      assert forall f | f in files[1..] :: f in files;
      WithoutAbsent(files[1..], name);
    }
  }

  lemma {:induction false} WithoutPresent(files: seq<Entry>, entry: Entry)
    requires Ordered(files) && entry in files && entry.content.Some?
    ensures OnDisk(files) == OnDisk(Without(files, entry.name)) + multiset{entry.content.value}
  {
    var rest := files[1..];
    assert files == [files[0]] + rest;
    assert Ordered(rest) by {
      assert forall i | 0 <= i < |rest| :: rest[i] == files[i + 1];
    }
    if files[0].name == entry.name {
      NamesDiffer(files, files[0], entry);
    } else {
      WithoutPresent(rest, entry);
      var kept := Without(rest, entry.name);
      assert ([files[0]] + kept)[1..] == kept;
    }
  }

  // Moving events between fates, on the sums alone.

  lemma MoveStored(captured: multiset<Event>, queued: multiset<Event>, flying: multiset<Event>, disk: multiset<Event>,
                   settled: multiset<Event>, kept: multiset<Event>, gone: multiset<Event>, event: multiset<Event>)
    requires captured == queued + flying + disk + settled && disk + event == gone + kept
    ensures captured + event == queued + flying + kept + (settled + gone)
    ensures flying == event ==> captured == queued + multiset{} + kept + (settled + gone)
  {
    assert queued + flying + disk + settled + event == queued + flying + (disk + event) + settled;
    if flying == event {
      assert queued + event + disk + settled == queued + (disk + event) + settled;
    }
  }

  lemma SettledGrows(l: Ledger, more: multiset<Event>)
    ensures Settled(l.(delivered := l.delivered + more)) == Settled(l) + more
    ensures Settled(l.(rejected := l.rejected + more)) == Settled(l) + more
    ensures Settled(l.(evicted := l.evicted + more)) == Settled(l) + more
    ensures Settled(l.(dropped := l.dropped + more)) == Settled(l) + more
  {
  }

  lemma SettledExchange(l: Ledger, event: Event)
    requires event in l.evicted
    ensures Settled(l.(evicted := l.evicted - multiset{event}, delivered := l.delivered + multiset{event}))
            == Settled(l)
    ensures Settled(l.(evicted := l.evicted - multiset{event}, rejected := l.rejected + multiset{event})) == Settled(l)
  {
  }

  lemma StoreConserved(queue: seq<Command>, phase: Phase, files: seq<Entry>, l: Ledger,
                       maxBytes: nat, event: Event, name: string, kept: seq<Entry>)
    requires Conserved(queue, phase, files, l) && Stored(files, maxBytes, event, name) == Ok(kept)
    ensures var evicted := l.evicted + multiset(EvictedEvents(files, maxBytes, event, name));
            && Conserved(queue, phase, kept, l.(captured := l.captured + multiset{event}, evicted := evicted))
            && (phase.Sending? && phase.event == event ==> Conserved(queue, Idle, kept, l.(evicted := evicted)))
  {
    var entry, gone := StoreParts(files, maxBytes, event, name, kept);
    MoveStored(l.captured, Queued(queue), InFlight(phase), OnDisk(files), Settled(l), OnDisk(kept), OnDisk(gone),
               multiset{event});
    SettledGrows(l, OnDisk(gone));
  }

  lemma EnqueueConserved(queue: seq<Command>, phase: Phase, files: seq<Entry>, l: Ledger, command: Command)
    requires Conserved(queue, phase, files, l)
    ensures Conserved(queue + [command], phase, files,
                      if command.Send? then l.(captured := l.captured + multiset{command.event}) else l)
  {
    QueuedConcat(queue, [command]);
    assert [command][1..] == [];
    assert Queued([command]) == if command.Send? then multiset{command.event} else multiset{};
    assert Queued(queue) + Queued([command]) + InFlight(phase) + OnDisk(files) + Settled(l)
        == Queued(queue) + InFlight(phase) + OnDisk(files) + Settled(l) + Queued([command]);
  }

  lemma SettleConserved(queue: seq<Command>, phase: Phase, files: seq<Entry>, l: Ledger)
    requires Conserved(queue, phase, files, l) && phase.Sending?
    ensures var m := multiset{phase.event};
            && Conserved(queue, Idle, files, l.(delivered := l.delivered + m))
            && Conserved(queue, Idle, files, l.(rejected := l.rejected + m))
            && Conserved(queue, Idle, files, l.(dropped := l.dropped + m))
  {
    var m := multiset{phase.event};
    SettledGrows(l, m);
    assert Queued(queue) + m + OnDisk(files) + Settled(l)
        == Queued(queue) + multiset{} + OnDisk(files) + (Settled(l) + m);
  }

  lemma ResendConserved(queue: seq<Command>, phase: Phase, files: seq<Entry>, l: Ledger, next: Phase, delivered: bool)
    requires Conserved(queue, phase, files, l) && Ordered(files)
    requires phase.Resending? && phase.entry.content.Some? && !next.Sending?
    requires phase.entry in files || (!Named(files, phase.entry.name) && phase.entry.content.value in l.evicted)
    ensures Conserved(queue, next, Without(files, phase.entry.name),
                      ResentLedger(files, l, phase.entry, phase.entry.content.value, delivered))
  {
    var entry, event := phase.entry, phase.entry.content.value;
    if entry in files {
      WithoutPresent(files, entry);
      assert Holds(files, entry.name) by {
        var i :| 0 <= i < |files| && files[i] == entry;
      }
      var rest := OnDisk(Without(files, entry.name));
      SettledGrows(l, multiset{event});
      assert Queued(queue) + multiset{} + (rest + multiset{event}) + Settled(l)
          == Queued(queue) + multiset{} + rest + (Settled(l) + multiset{event});
    } else {
      WithoutAbsent(files, entry.name);
      SettledExchange(l, event);
      assert !Holds(files, entry.name) by {
        forall i | 0 <= i < |files| ensures files[i].name != entry.name { assert files[i] in files; }
      }
    }
  }

  // The same for whole states.

  lemma EnqueueValid(s: State, command: Command)
    requires Valid(s)
    ensures Valid(s.(commands := s.commands + [command],
                     ledger := if command.Send? then s.ledger.(captured := s.ledger.captured + multiset{command.event})
                               else s.ledger))
  {
    EnqueueConserved(s.commands[s.taken..], s.phase, s.files, s.ledger, command);
    assert (s.commands + [command])[s.taken..] == s.commands[s.taken..] + [command];
  }

  lemma CaptureSpooledValid(cfg: Config, s: State, event: Event, name: string, kept: seq<Entry>)
    requires Valid(s) && name !in s.names && Stored(s.files, cfg.maxBytes, event, name) == Ok(kept)
    ensures var counted := s.(ledger := s.ledger.(captured := s.ledger.captured + multiset{event}));
            Valid(Spooled(cfg, counted, event, name, kept))
  {
    StoreConserved(s.commands[s.taken..], s.phase, s.files, s.ledger, cfg.maxBytes, event, name, kept);
    StoreFiled(s.files, s.names, cfg.maxBytes, event, name, kept);
    StoreTracked(s.files, s.names, s.phase, s.ledger.evicted, cfg.maxBytes, event, name, kept);
  }

  lemma SendSpooledValid(cfg: Config, s: State, event: Event, name: string, kept: seq<Entry>, tried: set<nat>)
    requires Valid(s) && s.phase.Sending? && s.phase.event == event && name !in s.names
    requires Stored(s.files, cfg.maxBytes, event, name) == Ok(kept)
    ensures Valid(Spooled(cfg, s.(phase := Idle, attempted := tried), event, name, kept))
  {
    StoreConserved(s.commands[s.taken..], s.phase, s.files, s.ledger, cfg.maxBytes, event, name, kept);
    StoreFiled(s.files, s.names, cfg.maxBytes, event, name, kept);
  }

  lemma ReceiveValid(s: State)
    requires Valid(s) && s.phase.Idle? && s.taken < |s.commands|
    ensures Valid(Received(s))
  {
  }

  lemma LiveKept(files: seq<Entry>, names: set<string>)
    requires Filed(files, names)
    ensures Filed(WithoutCorruptHead(files), names) && OnDisk(WithoutCorruptHead(files)) == OnDisk(files)
  {
  }

  lemma AnsweredValid(s: State, reply: Option<nat>, report: Report)
    requires Valid(s) && !s.phase.Sending?
    ensures Valid(Answered(s, reply, report))
  {
  }

  lemma DrainAdvancedValid(s: State, expired: bool)
    requires Valid(s) && s.phase.Draining?
    ensures Valid(DrainAdvanced(s, expired))
  {
    var live := WithoutCorruptHead(s.files);
    if expired {
      AnsweredValid(s, s.phase.reply, Report(s.phase.delivered, |s.files|));
    } else {
      LiveKept(s.files, s.names);
      if live == [] {
        AnsweredValid(s.(files := []), s.phase.reply, Report(s.phase.delivered, 0));
      } else {
        assert live[0] in live;
        assert live[0].name in s.names;
      }
    }
  }

  lemma ResendSettledValid(s: State, delivered: bool, count: nat)
    requires Valid(s) && s.phase.Resending?
    ensures s.phase.entry.content.Some?
    ensures var entry := s.phase.entry;
            Valid(s.(files := Without(s.files, entry.name), phase := Draining(s.phase.reply, count),
                     ledger := ResentLedger(s.files, s.ledger, entry, entry.content.value, delivered)))
  {
    var entry := s.phase.entry;
    ResendConserved(s.commands[s.taken..], s.phase, s.files, s.ledger, Draining(s.phase.reply, count), delivered);
    WithoutMeaning(s.files, entry.name);
  }

  lemma CaptureValid(cfg: Config, s: State, event: Event, name: string)
    requires Valid(s) && name !in s.names
    ensures Valid(Captured(cfg, s, event, name))
  {
    if CaptureResult(cfg, s, event, name).Ok? {
      if |s.commands| - s.taken < cfg.capacity {
        EnqueueValid(s, Send(event));
      } else {
        CaptureSpooledValid(cfg, s, event, name, Stored(s.files, cfg.maxBytes, event, name).value);
      }
    }
  }

  lemma SendSettledValid(s: State, tried: set<nat>)
    requires Valid(s) && s.phase.Sending?
    ensures var done, m := s.(phase := Idle, attempted := tried), multiset{s.phase.event};
            && Valid(done.(ledger := s.ledger.(delivered := s.ledger.delivered + m)))
            && Valid(done.(ledger := s.ledger.(rejected := s.ledger.rejected + m)))
            && Valid(done.(ledger := s.ledger.(dropped := s.ledger.dropped + m)))
  {
    SettleConserved(s.commands[s.taken..], s.phase, s.files, s.ledger);
  }

  lemma SendFinishedValid(cfg: Config, s: State, response: Response, name: string)
    requires Valid(s) && s.phase.Sending? && name !in s.names
    ensures Valid(SendFinished(cfg, s, response, name))
  {
    var tried := s.attempted + {s.phase.index};
    match Classify(response)
    case Delivered => SendSettledValid(s, tried);
    case PermanentFailure => SendSettledValid(s, tried);
    case Retry =>
      match Stored(s.files, cfg.maxBytes, s.phase.event, name)
      case Ok(kept) => SendSpooledValid(cfg, s, s.phase.event, name, kept, tried);
      case Err(_) => SendSettledValid(s, tried);
  }

  lemma ResendFinishedValid(s: State, response: Response)
    requires Valid(s) && s.phase.Resending?
    ensures s.phase.entry.content.Some? && Valid(ResendFinished(s, response))
  {
    match Classify(response)
    case Delivered => ResendSettledValid(s, true, s.phase.delivered + 1);
    case PermanentFailure => ResendSettledValid(s, false, s.phase.delivered);
    case Retry => AnsweredValid(s, s.phase.reply, Report(s.phase.delivered, |s.files|));
  }

  /** What validity reads is as before. */
  lemma AsideValid(s: State, u: State)
    requires Valid(s) && u == s.(stopping := u.stopping, phase := u.phase)
    requires u.phase == s.phase || (s.phase.Idle? && u.phase.Draining?)
    ensures Valid(u)
  {
  }

  lemma CallerStepValid(cfg: Config, s: State, a: Action)
    requires Valid(s) && (a.Capture? || a.RequestFlush? || a.RequestStop? || a.PostShutdown?)
    ensures Valid(Step(cfg, s, a))
  {
    match a
    case Capture(event, name) => if name !in s.names { CaptureValid(cfg, s, event, name); }
    case RequestFlush => EnqueueValid(s, Flush);
    case RequestStop => AsideValid(s, s.(stopping := true));
    case PostShutdown => EnqueueValid(s, Shutdown);
  }

  lemma WorkerStepValid(cfg: Config, s: State, a: Action)
    requires Valid(s) && !(a.Capture? || a.RequestFlush? || a.RequestStop? || a.PostShutdown?)
    ensures Valid(Step(cfg, s, a))
  {
    match a
    case Receive => if s.phase.Idle? && s.taken < |s.commands| { ReceiveValid(s); }
    case IdleTimeout => if s.phase.Idle? { AsideValid(s, s.(phase := Draining(None, 0))); }
    case FinishSend(response, name) =>
      if s.phase.Sending? && name !in s.names { SendFinishedValid(cfg, s, response, name); }
    case DrainNext(expired) => if s.phase.Draining? { DrainAdvancedValid(s, expired); }
    case FinishResend(response) => if s.phase.Resending? { ResendFinishedValid(s, response); }
  }

  lemma StepValid(cfg: Config, s: State, a: Action)
    requires Valid(s)
    ensures Valid(Step(cfg, s, a))
  {
    if a.Capture? || a.RequestFlush? || a.RequestStop? || a.PostShutdown? {
      CallerStepValid(cfg, s, a);
    } else {
      WorkerStepValid(cfg, s, a);
    }
  }

  lemma {:induction false} RunValid(cfg: Config, files: seq<Entry>, run: seq<Action>)
    requires Ordered(files)
    ensures Valid(After(cfg, Start(files), run))
  {
    if run == [] {
      OnDiskIsEvents(files);
      assert forall f | f in files :: f.name in Start(files).names;
    } else {
      RunValid(cfg, files, run[..|run| - 1]);
      StepValid(cfg, After(cfg, Start(files), run[..|run| - 1]), run[|run| - 1]);
    }
  }

  /** In every reachable state the accepted events are exactly those queued, in
      flight, spooled, delivered, rejected, evicted and dropped, with
      multiplicity: none is lost, none is doubled. */
  lemma Conservation(cfg: Config, files: seq<Entry>, run: seq<Action>)
    requires Ordered(files)
    ensures var s := After(cfg, Start(files), run);
            && s.taken <= |s.commands|
            && s.ledger.captured ==
               Queued(s.commands[s.taken..]) + InFlight(s.phase) + multiset(Events(s.files))
               + s.ledger.delivered + s.ledger.rejected + s.ledger.evicted + s.ledger.dropped
  {
    RunValid(cfg, files, run);
    OnDiskIsEvents(After(cfg, Start(files), run).files);
  }
}
