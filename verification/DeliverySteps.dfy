/** What each action of the delivery protocol does, on queue, files, status codes
    and fates alone. */
module DeliverySteps {
  import opened Text
  import opened Spool
  import opened Delivery
  import DeliveryRuns

  // ---- Responses ---------------------------------------------------------

  predicate IsSuccess(response: Response) {
    response.Status? && 200 <= response.code <= 299
  }

  /** No response at all, a timeout, too many requests, or a server error. */
  predicate IsRetry(response: Response) {
    response.TransportError? || response.code == 408 || response.code == 429 || 500 <= response.code <= 599
  }

  lemma ClassifyMeaning(response: Response)
    ensures Classify(response).Delivered? <==> IsSuccess(response)
    ensures Classify(response).Retry? <==> IsRetry(response)
    ensures Classify(response).PermanentFailure? <==> !IsSuccess(response) && !IsRetry(response)
  {
  }

  // ---- Storing -----------------------------------------------------------

  predicate Fits(cfg: Config, event: Event) {
    0 < cfg.maxBytes && |event.body| <= cfg.maxBytes
  }

  /** The listing with one file more, in its place. */
  ghost predicate WithFile(files: seq<Entry>, entry: Entry, all: seq<Entry>) {
    Ordered(all) && |all| == |files| + 1 && forall f :: f in all <==> f in files || f == entry
  }

  /** The longest suffix within the bound. */
  ghost predicate LongestSuffix(all: seq<Entry>, kept: seq<Entry>, maxBytes: nat) {
    && |kept| <= |all| && kept == all[|all| - |kept|..] && Total(kept) <= maxBytes
    && forall k | 0 <= k < |all| - |kept| :: Total(all[k..]) > maxBytes
  }

  ghost predicate IsBounded(files: seq<Entry>, entry: Entry, maxBytes: nat, kept: seq<Entry>) {
    exists all :: WithFile(files, entry, all) && LongestSuffix(all, kept, maxBytes)
  }

  function FileOf(event: Event, name: string): Entry {
    Entry(name, Some(event), |event.body|)
  }

  lemma NotHeld(files: seq<Entry>, names: set<string>, name: string)
    requires DeliveryRuns.Filed(files, names) && name !in names
    ensures !Holds(files, name)
  {
    forall i | 0 <= i < |files| ensures files[i].name != name { assert files[i] in files; }
  }

  lemma StoredBounded(files: seq<Entry>, maxBytes: nat, event: Event, name: string)
    requires Ordered(files) && !Holds(files, name)
    ensures var r := Stored(files, maxBytes, event, name);
            if maxBytes == 0 then r == Err(Disabled)
            else if |event.body| > maxBytes then r == Err(EventTooLarge)
            else r.Ok? && IsBounded(files, FileOf(event, name), maxBytes, r.value)
  {
    if 0 < maxBytes && |event.body| <= maxBytes {
      var entry := FileOf(event, name);
      var all := Placed(files, entry);
      PlacedOrdered(files, entry);
      DeliveryRuns.PlacedMembers(files, entry);
      BoundedMeaning(all, maxBytes);
      assert WithFile(files, entry, all) && LongestSuffix(all, Bounded(all, maxBytes), maxBytes);
    }
  }

  /** A file whose name sorts last is kept. */
  lemma LastKept(files: seq<Entry>, maxBytes: nat, event: Event, name: string)
    requires Ordered(files) && 0 < maxBytes && |event.body| <= maxBytes
    requires forall f | f in files :: Less(f.name, name)
    ensures Stored(files, maxBytes, event, name).Ok?
    ensures FileOf(event, name) in Stored(files, maxBytes, event, name).value
  {
    NewestSurvives(files, maxBytes, event, name);
  }

  /** What a store changes: the files, the names used, and who was evicted. */
  ghost predicate IsSpooled(cfg: Config, s: State, u: State, event: Event, name: string) {
    && IsBounded(s.files, FileOf(event, name), cfg.maxBytes, u.files)
    && ((forall f | f in s.files :: Less(f.name, name)) ==> FileOf(event, name) in u.files)
    && u.names == s.names + {name}
    && multiset(Events(u.files)) + u.ledger.evicted == multiset(Events(s.files)) + multiset{event} + s.ledger.evicted
  }

  lemma EvictedBalance(files: seq<Entry>, maxBytes: nat, event: Event, name: string, kept: seq<Entry>)
    requires Stored(files, maxBytes, event, name) == Ok(kept)
    ensures multiset(Events(files)) + multiset{event}
            == multiset(EvictedEvents(files, maxBytes, event, name)) + multiset(Events(kept))
  {
    var entry, gone := DeliveryRuns.StoreParts(files, maxBytes, event, name, kept);
    DeliveryRuns.OnDiskIsEvents(files);
    DeliveryRuns.OnDiskIsEvents(kept);
  }

  lemma Balanced(before: multiset<Event>, event: multiset<Event>, gone: multiset<Event>, kept: multiset<Event>,
                 evicted: multiset<Event>)
    requires before + event == gone + kept
    ensures kept + (evicted + gone) == before + event + evicted
  {
  }

  lemma SpooledMeaning(cfg: Config, s: State, event: Event, name: string, kept: seq<Entry>)
    requires DeliveryRuns.Filed(s.files, s.names) && name !in s.names
    requires Stored(s.files, cfg.maxBytes, event, name) == Ok(kept)
    ensures IsSpooled(cfg, s, Spooled(cfg, s, event, name, kept), event, name)
    ensures var u := Spooled(cfg, s, event, name, kept);
            u == s.(files := u.files, names := u.names, ledger := s.ledger.(evicted := u.ledger.evicted))
  {
    NotHeld(s.files, s.names, name);
    StoredBounded(s.files, cfg.maxBytes, event, name);
    if forall f | f in s.files :: Less(f.name, name) { LastKept(s.files, cfg.maxBytes, event, name); }
    EvictedBalance(s.files, cfg.maxBytes, event, name, kept);
    Balanced(multiset(Events(s.files)), multiset{event},
             multiset(EvictedEvents(s.files, cfg.maxBytes, event, name)), multiset(Events(kept)), s.ledger.evicted);
  }

  // ---- Captures ----------------------------------------------------------

  lemma CaptureSpools(cfg: Config, s: State, event: Event, name: string)
    requires DeliveryRuns.Filed(s.files, s.names) && name !in s.names && Fits(cfg, event)
    requires !s.stopping && !s.phase.Stopped? && |s.commands| - s.taken >= cfg.capacity
    ensures var u := Step(cfg, s, Capture(event, name));
            var captured := s.ledger.(captured := s.ledger.captured + multiset{event});
            && IsSpooled(cfg, s, u, event, name)
            && u == s.(files := u.files, names := u.names, ledger := captured.(evicted := u.ledger.evicted))
  {
    NotHeld(s.files, s.names, name);
    StoredBounded(s.files, cfg.maxBytes, event, name);
    var kept := Stored(s.files, cfg.maxBytes, event, name).value;
    var counted := s.(ledger := s.ledger.(captured := s.ledger.captured + multiset{event}));
    SpooledMeaning(cfg, counted, event, name, kept);
    assert Step(cfg, s, Capture(event, name)) == Spooled(cfg, counted, event, name, kept);
  }

  /** With room a capture is queued; without, it is spooled exactly when it fits;
      else, and once the client stops, nothing happens. */
  lemma CaptureMeaning(cfg: Config, s: State, event: Event, name: string)
    requires DeliveryRuns.Filed(s.files, s.names) && name !in s.names
    ensures var u := Step(cfg, s, Capture(event, name));
            var captured := s.ledger.(captured := s.ledger.captured + multiset{event});
            if s.stopping || s.phase.Stopped? then u == s
            else if |s.commands| - s.taken < cfg.capacity then
              u == s.(commands := s.commands + [Send(event)], ledger := captured)
            else if Fits(cfg, event) then
              && IsSpooled(cfg, s, u, event, name)
              && u == s.(files := u.files, names := u.names, ledger := captured.(evicted := u.ledger.evicted))
            else u == s
  {
    if !s.stopping && !s.phase.Stopped? && |s.commands| - s.taken >= cfg.capacity {
      if Fits(cfg, event) {
        CaptureSpools(cfg, s, event, name);
      } else {
        NotHeld(s.files, s.names, name);
        StoredBounded(s.files, cfg.maxBytes, event, name);
      }
    }
  }

  /** The answer to a capture. */
  lemma CaptureAnswer(cfg: Config, s: State, event: Event, name: string)
    requires DeliveryRuns.Filed(s.files, s.names) && name !in s.names
    ensures CaptureResult(cfg, s, event, name) ==
            if s.stopping || s.phase.Stopped? then Err(SenderStopped)
            else if |s.commands| - s.taken < cfg.capacity || Fits(cfg, event) then Ok(())
            else if cfg.maxBytes == 0 then Err(SpoolFailed(Disabled))
            else Err(SpoolFailed(EventTooLarge))
  {
    NotHeld(s.files, s.names, name);
    StoredBounded(s.files, cfg.maxBytes, event, name);
  }

  // ---- Responses to queued events ----------------------------------------

  /** A queued event is delivered on success, spooled or dropped for a retry by
      whether it fits, and rejected on any other status. */
  lemma SendMeaning(cfg: Config, s: State, response: Response, name: string)
    requires DeliveryRuns.Filed(s.files, s.names) && s.phase.Sending? && name !in s.names
    ensures var u, e := Step(cfg, s, FinishSend(response, name)), s.phase.event;
            var done := s.(phase := Idle, attempted := s.attempted + {s.phase.index});
            if IsSuccess(response) then
              u == done.(ledger := s.ledger.(delivered := s.ledger.delivered + multiset{e}))
            else if !IsRetry(response) then
              u == done.(ledger := s.ledger.(rejected := s.ledger.rejected + multiset{e}))
            else if Fits(cfg, e) then
              && IsSpooled(cfg, s, u, e, name)
              && u == done.(files := u.files, names := u.names, ledger := s.ledger.(evicted := u.ledger.evicted))
            else u == done.(ledger := s.ledger.(dropped := s.ledger.dropped + multiset{e}))
  {
    var e := s.phase.event;
    var done := s.(phase := Idle, attempted := s.attempted + {s.phase.index});
    ClassifyMeaning(response);
    NotHeld(s.files, s.names, name);
    StoredBounded(s.files, cfg.maxBytes, e, name);
    if Fits(cfg, e) { SpooledMeaning(cfg, done, e, name, Stored(s.files, cfg.maxBytes, e, name).value); }
  }

  // ---- Responses to spooled events ---------------------------------------

  /** The flush that asked for the drain, if one did, is answered. */
  ghost predicate IsAnswer(s: State, u: State, reply: Option<nat>, delivered: nat, remaining: nat) {
    u == s.(files := u.files, phase := Idle,
            replies := if reply.Some? then s.replies + [Reply(reply.value, Report(delivered, remaining), s.attempted)]
                       else s.replies)
  }

  /** A spooled event is delivered on success and rejected on a status that is no
      retry; its file goes, or is no longer counted as evicted. A retry ends the
      drain and changes no file. */
  lemma ResendMeaning(cfg: Config, s: State, response: Response)
    requires DeliveryRuns.Filed(s.files, s.names) && s.phase.Resending? && s.phase.entry.content.Some?
    ensures var u, entry := Step(cfg, s, FinishResend(response)), s.phase.entry;
            var e, reply, n := entry.content.value, s.phase.reply, s.phase.delivered;
            var gone := if Holds(s.files, entry.name) then s.ledger.evicted else s.ledger.evicted - multiset{e};
            if IsRetry(response) then IsAnswer(s, u, reply, n, |s.files|) && u.files == s.files
            else
              && Ordered(u.files) && (forall f :: f in u.files <==> f in s.files && f.name != entry.name)
              && u == (if IsSuccess(response) then
                         s.(files := u.files, phase := Draining(reply, n + 1),
                            ledger := s.ledger.(evicted := gone, delivered := s.ledger.delivered + multiset{e}))
                       else
                         s.(files := u.files, phase := Draining(reply, n),
                            ledger := s.ledger.(evicted := gone, rejected := s.ledger.rejected + multiset{e})))
  {
    ClassifyMeaning(response);
    WithoutMeaning(s.files, s.phase.entry.name);
    assert Step(cfg, s, FinishResend(response)) == ResendFinished(s, response);
  }

  // ---- The drain ---------------------------------------------------------

  /** The first `k` files are corrupt, and the next is not. */
  predicate CorruptHead(files: seq<Entry>, k: nat) {
    && k <= |files| && (forall i | 0 <= i < k :: files[i].content.None?)
    && (k < |files| ==> files[k].content.Some?)
  }

  lemma {:induction false} LiveMeaning(files: seq<Entry>, k: nat)
    requires CorruptHead(files, k)
    ensures WithoutCorruptHead(files) == files[k..]
  {
    if k > 0 {
      assert forall i | 0 <= i < |files| - 1 :: files[1..][i] == files[i + 1];
      LiveMeaning(files[1..], k - 1);
      assert files[1..][k - 1..] == files[k..];
    }
  }

  /** Past the deadline the drain ends and touches no file; before it the corrupt
      files in front go, and the next is sent or the drain ends. */
  lemma DrainNextMeaning(cfg: Config, s: State, expired: bool, k: nat)
    requires s.phase.Draining? && CorruptHead(s.files, k)
    ensures var u, reply, n := Step(cfg, s, DrainNext(expired)), s.phase.reply, s.phase.delivered;
            if expired then IsAnswer(s, u, reply, n, |s.files|) && u.files == s.files
            else if k == |s.files| then IsAnswer(s, u, reply, n, 0) && u.files == []
            else u == s.(files := s.files[k..], phase := Resending(reply, n, s.files[k]))
  {
    LiveMeaning(s.files, k);
    assert Step(cfg, s, DrainNext(expired)) == DrainAdvanced(s, expired);
  }

  // ---- Commands ----------------------------------------------------------

  /** The worker takes the oldest command; a stop command stops it. */
  lemma ReceiveMeaning(cfg: Config, s: State)
    requires s.phase.Idle? && s.taken < |s.commands|
    ensures var u, command := Step(cfg, s, Receive), s.commands[s.taken];
            && u == s.(taken := s.taken + 1, phase := u.phase)
            && (command.Send? ==> u.phase == Sending(s.taken, command.event))
            && (command.Flush? ==> u.phase == Draining(Some(s.taken), 0))
            && (command.Shutdown? ==> u.phase == Stopped)
  {
  }

  /** With nothing to take, the worker drains for nobody. */
  lemma TimeoutMeaning(cfg: Config, s: State)
    requires s.phase.Idle? && s.taken == |s.commands|
    ensures Step(cfg, s, IdleTimeout) == s.(phase := Draining(None, 0))
  {
  }

  /** Flushes and stops queue behind everything, while there is room and a worker;
      a stop only once the client is stopping. */
  lemma RequestsMeaning(cfg: Config, s: State)
    ensures var room := |s.commands| - s.taken < cfg.capacity && !s.phase.Stopped?;
            && Step(cfg, s, RequestFlush) == (if room then s.(commands := s.commands + [Flush]) else s)
            && Step(cfg, s, PostShutdown) ==
               (if room && s.stopping then s.(commands := s.commands + [Shutdown]) else s)
            && Step(cfg, s, RequestStop) == s.(stopping := true)
  {
  }

  // ---- Every run ---------------------------------------------------------

  /** The response an action brings. */
  function ResponseOf(a: Action): Option<Response> {
    match a
    case FinishSend(response, _) => Some(response)
    case FinishResend(response) => Some(response)
    case _ => None
  }

  /** Which fates a response can settle. */
  ghost predicate FatesChange(l: Ledger, u: Ledger, r: Response, queued: bool) {
    && (u.delivered != l.delivered ==> IsSuccess(r))
    && (u.rejected != l.rejected ==> !IsSuccess(r) && !IsRetry(r))
    && (u.dropped != l.dropped ==> queued && IsRetry(r))
  }

  lemma SendFates(cfg: Config, s: State, response: Response, name: string)
    requires s.phase.Sending?
    ensures FatesChange(s.ledger, SendFinished(cfg, s, response, name).ledger, response, true)
  {
    ClassifyMeaning(response);
  }

  lemma ResendFates(s: State, response: Response)
    requires s.phase.Resending? && s.phase.entry.content.Some?
    ensures FatesChange(s.ledger, ResendFinished(s, response).ledger, response, false)
  {
    ClassifyMeaning(response);
  }

  lemma FatesOfStep(cfg: Config, s: State, a: Action)
    ensures var l, u, r := s.ledger, Step(cfg, s, a).ledger, ResponseOf(a);
            if r.Some? then FatesChange(l, u, r.value, a.FinishSend?)
            else u.delivered == l.delivered && u.rejected == l.rejected && u.dropped == l.dropped
  {
    match a
    case FinishSend(response, name) => if s.phase.Sending? { SendFates(cfg, s, response, name); }
    case FinishResend(response) =>
      if s.phase.Resending? && s.phase.entry.content.Some? { ResendFates(s, response); }
    case _ =>
  }

  /** In every run, deliveries are counted on successes alone, rejections on
      statuses that are neither success nor retry, and only a retry drops. */
  lemma FatesOfRun(cfg: Config, files: seq<Entry>, run: seq<Action>, k: nat)
    requires k < |run|
    ensures var l, u := After(cfg, Start(files), run[..k]).ledger, After(cfg, Start(files), run[..k + 1]).ledger;
            var r := ResponseOf(run[k]);
            if r.Some? then FatesChange(l, u, r.value, run[k].FinishSend?)
            else u.delivered == l.delivered && u.rejected == l.rejected && u.dropped == l.dropped
  {
    FatesOfStep(cfg, After(cfg, Start(files), run[..k]), run[k]);
    assert run[..k + 1][..k] == run[..k];
  }
}
